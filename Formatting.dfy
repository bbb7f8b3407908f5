/** One paragraph of a parsed document and the formatting record the
    extractor derives from it. The parsed tree is an input value: the loader
    library that builds it is not part of this model. */
module Formatting {
  import opened Wrappers
  import opened Text
  import opened Units

  /** A raw measurement as the loader exposes it: not declared, declared with
      a value, or declared in a form whose accessor raises when read. */
  datatype Measure = Absent | Value(v: int) | Malformed

  /** A run: its literal text, its declared font name, its declared size in
      EMU, and its tri-state bold and italic flags. */
  datatype Run = Run(
    text: string,
    fontName: Option<string>,
    fontSize: Option<int>,
    bold: Option<bool>,
    italic: Option<bool>)

  /** A paragraph: its text (which the loader may build from more than its
      runs), its runs, its alignment code, its line spacing in twips and its
      first-line indent and spacing before and after in EMU. */
  datatype Paragraph = Paragraph(
    text: string,
    runs: seq<Run>,
    alignment: Option<int>,
    lineSpacing: Measure,
    firstLineIndent: Measure,
    spaceBefore: Measure,
    spaceAfter: Measure)

  datatype Document = Document(paragraphs: seq<Paragraph>)

  /** The font part of a record. Sizes are tenths of a point. */
  datatype FontInfo = FontInfo(name: string, sizeTenthsPt: Option<int>, isBold: bool, isItalic: bool)

  /** One output record. Line spacing and spacing before/after are hundredths
      of a point, the first-line indent hundredths of a centimetre. */
  datatype Record = Record(
    index: nat,
    textPreview: string,
    fullText: string,
    fontName: string,
    fontSizeTenthsPt: Option<int>,
    isBold: bool,
    isItalic: bool,
    alignment: string,
    lineSpacingHundredthsPt: Option<int>,
    firstLineIndentHundredthsCm: Option<int>,
    spaceBeforeHundredthsPt: Option<int>,
    spaceAfterHundredthsPt: Option<int>)

  const DefaultFontName: string := "默认"
  const DefaultFont: FontInfo := FontInfo(DefaultFontName, None, false, false)
  const PreviewLength: nat := 80
  const Ellipsis: string := "..."

  /** The paragraph and run test `not s.strip()`: the stripped text is
      empty, that is, `s` is all whitespace. */
  predicate Blank(s: string)
  {
    AllSpace(s)
  }

  /** `Blank` is the source's test: the stripped text is empty. */
  lemma BlankIsStripEmpty(s: string)
    ensures Blank(s) <==> Strip(s) == []
  {
  }

  /** The text preview: the first 80 characters, followed by "..." when the
      text is longer. */
  function Preview(text: string): (p: string)
    ensures |p| <= PreviewLength + |Ellipsis|
    ensures |text| <= PreviewLength ==> p == text
    ensures |text| > PreviewLength ==> |p| == PreviewLength + |Ellipsis| && p[PreviewLength..] == Ellipsis
    ensures text[..if |text| < PreviewLength then |text| else PreviewLength] <= p
  {
    text[..if |text| < PreviewLength then |text| else PreviewLength]
      + (if |text| > PreviewLength then Ellipsis else "")
  }

  /** A preview is its own preview. */
  lemma PreviewIdempotent(text: string)
    ensures Preview(Preview(text)) == Preview(text)
  {
    var p := Preview(text);
    if |text| > PreviewLength {
      assert p[..PreviewLength] == text[..PreviewLength];
    }
  }

  /** The preview equals the text exactly when the text is short or already
      ends, at position 80, in the ellipsis. */
  lemma PreviewIsText(text: string)
    ensures Preview(text) == text <==>
      |text| <= PreviewLength || text[PreviewLength..] == Ellipsis
  {
    if |text| > PreviewLength && text[PreviewLength..] == Ellipsis {
      assert text == text[..PreviewLength] + text[PreviewLength..];
    }
  }

  /** The representative run: the first run whose stripped text is not empty. */
  function RepresentativeRun(runs: seq<Run>): (r: Option<Run>)
    ensures r.Some? ==> r.value in runs && !Blank(r.value.text)
    ensures r.None? ==> forall k :: 0 <= k < |runs| ==> Blank(runs[k].text)
  {
    if runs == [] then None
    else if !Blank(runs[0].text) then Some(runs[0])
    else RepresentativeRun(runs[1..])
  }

  /** `RepresentativeRun` finds a run exactly when some run is not blank, and
      what it finds is the first such run. */
  lemma {:induction false} RepresentativeRunIsFirst(runs: seq<Run>)
    ensures RepresentativeRun(runs).None? <==> forall k :: 0 <= k < |runs| ==> Blank(runs[k].text)
    ensures RepresentativeRun(runs).Some? ==>
      exists k :: 0 <= k < |runs| && runs[k] == RepresentativeRun(runs).value
        && !Blank(runs[k].text) && forall j :: 0 <= j < k ==> Blank(runs[j].text)
  {
    if runs != [] && Blank(runs[0].text) {
      RepresentativeRunIsFirst(runs[1..]);
      if RepresentativeRun(runs[1..]).Some? {
        var k :| 0 <= k < |runs[1..]| && runs[1..][k] == RepresentativeRun(runs[1..]).value
          && !Blank(runs[1..][k].text) && forall j :: 0 <= j < k ==> Blank(runs[1..][j].text);
        assert runs[k + 1] == runs[1..][k];
        forall j | 0 <= j < k + 1 ensures Blank(runs[j].text) {
          if j > 0 { assert runs[j] == runs[1..][j - 1]; }
        }
      } else {
        forall k | 0 <= k < |runs| ensures Blank(runs[k].text) {
          if k > 0 { assert runs[k] == runs[1..][k - 1]; }
        }
      }
    } else if runs != [] {
      assert !Blank(runs[0].text);
    }
  }

  /** The inner search of the extractor: scan the runs in order and stop at
      the first one whose stripped text is not empty. */
  method FindMainRun(runs: seq<Run>) returns (main: Option<Run>)
    ensures main == RepresentativeRun(runs)
  {
    main := None;
    var k := 0;
    while k < |runs|
      invariant 0 <= k <= |runs|
      invariant RepresentativeRun(runs) == RepresentativeRun(runs[k..])
    {
      if !Blank(runs[k].text) {
        main := Some(runs[k]);
        break;
      }
      assert runs[k..][1..] == runs[k + 1..];
      k := k + 1;
    }
  }

  /** The font of one run: a missing or empty name becomes the default name,
      a missing or zero size is absent, and unspecified flags are false. */
  function FontOfRun(run: Run): (f: FontInfo)
    ensures f.name != []
    ensures f.name == DefaultFontName <==> run.fontName.None? || run.fontName.value in {[], DefaultFontName}
    ensures run.fontName.Some? && run.fontName.value != [] ==> f.name == run.fontName.value
    ensures f.sizeTenthsPt.Some? <==> run.fontSize.Some? && run.fontSize.value != 0
    ensures f.sizeTenthsPt.Some? ==>
      -EmuPerPoint <= 2 * (run.fontSize.value * 10 - f.sizeTenthsPt.value * EmuPerPoint) <= EmuPerPoint
    ensures f.isBold <==> run.bold == Some(true)
    ensures f.isItalic <==> run.italic == Some(true)
  {
    FontInfo(
      if run.fontName.Some? && run.fontName.value != [] then run.fontName.value else DefaultFontName,
      if run.fontSize.Some? && run.fontSize.value != 0 then Some(EmuToTenthsPt(run.fontSize.value)) else None,
      run.bold == Some(true),
      run.italic == Some(true))
  }

  /** The font of a paragraph: that of its representative run, or the
      defaults when every run is blank. */
  function FontOf(runs: seq<Run>): (f: FontInfo)
    ensures f.name != []
    ensures f == DefaultFont || exists k :: 0 <= k < |runs| && !Blank(runs[k].text) && f == FontOfRun(runs[k])
  {
    match RepresentativeRun(runs)
    case None => DefaultFont
    case Some(run) => FontOfRun(run)
  }

  /** Blank runs in front of the representative run have no effect: a bold
      empty run followed by a plain run gives a plain paragraph. */
  lemma {:induction false} FontSkipsBlankRuns(blanks: seq<Run>, runs: seq<Run>)
    requires forall k :: 0 <= k < |blanks| ==> Blank(blanks[k].text)
    ensures RepresentativeRun(blanks + runs) == RepresentativeRun(runs)
    ensures FontOf(blanks + runs) == FontOf(runs)
  {
    if blanks != [] {
      var all := blanks + runs;
      assert all[0] == blanks[0];
      assert all[1..] == blanks[1..] + runs;
      FontSkipsBlankRuns(blanks[1..], runs);
    } else {
      assert blanks + runs == runs;
    }
  }

  /** The font of a paragraph is the font of its first run with text. */
  lemma FontOfFirstNonBlank(runs: seq<Run>, k: int)
    requires 0 <= k < |runs| && !Blank(runs[k].text)
    requires forall j :: 0 <= j < k ==> Blank(runs[j].text)
    ensures FontOf(runs) == FontOfRun(runs[k])
  {
    assert runs == runs[..k] + runs[k..];
    FontSkipsBlankRuns(runs[..k], runs[k..]);
    assert runs[k..][0] == runs[k];
  }

  lemma BlankBoldRunIgnored(first: Run, second: Run)
    requires Blank(first.text) && first.bold == Some(true)
    requires !Blank(second.text) && second.bold != Some(true)
    ensures !FontOf([first, second]).isBold
  {
    assert [first, second] == [first] + [second];
    FontSkipsBlankRuns([first], [second]);
  }

  /** With no run carrying text the paragraph keeps every default. */
  lemma FontDefaultsWhenAllBlank(runs: seq<Run>)
    requires forall k :: 0 <= k < |runs| ==> Blank(runs[k].text)
    ensures FontOf(runs) == DefaultFont
  {
    RepresentativeRunIsFirst(runs);
  }

  const AlignLabels: map<int, string> := map[
    0 := "左对齐",
    1 := "居中",
    2 := "右对齐",
    3 := "两端对齐",
    4 := "分散对齐"]
  const UnknownAlignment: string := "未知"

  /** The alignment label: one of five names for codes 0..4, "unknown" for
      every other code and for no code at all. */
  function AlignmentLabel(code: Option<int>): (name: string)
    ensures name == UnknownAlignment <==> !(code.Some? && 0 <= code.value <= 4)
    ensures code.Some? && 0 <= code.value <= 4 ==> name == AlignLabels[code.value]
  {
    if code.Some? && code.value in AlignLabels then AlignLabels[code.value] else UnknownAlignment
  }

  /** Different known codes give different labels. */
  lemma AlignmentLabelsDistinct(a: int, b: int)
    requires 0 <= a <= 4 && 0 <= b <= 4 && a != b
    ensures AlignmentLabel(Some(a)) != AlignmentLabel(Some(b))
  {
  }

  /** Line spacing: present whenever a value is declared, zero included;
      absent when undeclared or when reading it raises. */
  function LineSpacingOf(m: Measure): (h: Option<int>)
    ensures h.Some? <==> m.Value?
    ensures h.Some? ==> h.value * TwipsPerPoint == m.v * 100
  {
    if m.Value? then Some(TwipsToHundredthsPt(m.v)) else None
  }

  /** First-line indent: present only for a declared non-zero value. */
  function FirstLineIndentOf(m: Measure): (h: Option<int>)
    ensures h.Some? <==> m.Value? && m.v != 0
    ensures h.Some? ==> -EmuPerCm <= 2 * (m.v * 100 - h.value * EmuPerCm) <= EmuPerCm
  {
    if m.Value? && m.v != 0 then Some(EmuToHundredthsCm(m.v)) else None
  }

  /** Spacing before and after, read one after the other inside one guarded
      block: each is present only for a declared non-zero value, and a
      spacing-before that raises also leaves spacing-after absent. */
  function SpacingOf(before: Measure, after: Measure): (r: (Option<int>, Option<int>))
    ensures r.0.Some? <==> before.Value? && before.v != 0
    ensures r.1.Some? <==> !before.Malformed? && after.Value? && after.v != 0
    ensures r.0.Some? ==> -EmuPerPoint <= 2 * (before.v * 100 - r.0.value * EmuPerPoint) <= EmuPerPoint
    ensures r.1.Some? ==> -EmuPerPoint <= 2 * (after.v * 100 - r.1.value * EmuPerPoint) <= EmuPerPoint
  {
    if before.Malformed? then (None, None)
    else
      (if before.Value? && before.v != 0 then Some(EmuToHundredthsPt(before.v)) else None,
       if after.Value? && after.v != 0 then Some(EmuToHundredthsPt(after.v)) else None)
  }

  /** The record of the paragraph at position `i`. */
  function RecordOf(i: nat, p: Paragraph): (r: Record)
    requires !Blank(p.text)
    ensures r.index == i
    ensures r.fullText == Strip(p.text) && r.fullText != []
    ensures r.textPreview == Preview(r.fullText)
    ensures |r.textPreview| <= PreviewLength + |Ellipsis|
    ensures r.fontName != []
    ensures var f := FontOf(p.runs);
      r.fontName == f.name && r.fontSizeTenthsPt == f.sizeTenthsPt
      && r.isBold == f.isBold && r.isItalic == f.isItalic
    ensures r.alignment == AlignmentLabel(p.alignment)
    ensures r.lineSpacingHundredthsPt == LineSpacingOf(p.lineSpacing)
    ensures r.firstLineIndentHundredthsCm == FirstLineIndentOf(p.firstLineIndent)
    ensures (r.spaceBeforeHundredthsPt, r.spaceAfterHundredthsPt) == SpacingOf(p.spaceBefore, p.spaceAfter)
  {
    var text := Strip(p.text);
    var font := FontOf(p.runs);
    var spacing := SpacingOf(p.spaceBefore, p.spaceAfter);
    Record(i, Preview(text), text, font.name, font.sizeTenthsPt, font.isBold, font.isItalic,
      AlignmentLabel(p.alignment), LineSpacingOf(p.lineSpacing),
      FirstLineIndentOf(p.firstLineIndent), spacing.0, spacing.1)
  }

  /** A malformed measurement costs only its own field (and, for spacing
      before, spacing after): the rest of the record is unchanged. */
  lemma MalformedFieldIsIsolated(i: nat, p: Paragraph)
    requires !Blank(p.text)
    ensures RecordOf(i, p.(lineSpacing := Malformed))
      == RecordOf(i, p).(lineSpacingHundredthsPt := None)
    ensures RecordOf(i, p.(firstLineIndent := Malformed))
      == RecordOf(i, p).(firstLineIndentHundredthsCm := None)
    ensures RecordOf(i, p.(spaceAfter := Malformed))
      == RecordOf(i, p).(spaceAfterHundredthsPt := None)
    ensures RecordOf(i, p.(spaceBefore := Malformed))
      == RecordOf(i, p).(spaceBeforeHundredthsPt := None, spaceAfterHundredthsPt := None)
  {
  }

  /** The per-paragraph body of the extractor, step by step: font defaults
      overwritten by the representative run, the alignment lookup, and each
      measurement starting absent and set only when it reads cleanly. */
  method NormalizeParagraph(i: nat, p: Paragraph, text: string) returns (rec: Record)
    requires text == Strip(p.text) && text != []
    ensures rec == RecordOf(i, p)
  {
    var font := DefaultFont;
    if |p.runs| > 0 {
      var main := FindMainRun(p.runs);
      if main.Some? {
        font := FontOfRun(main.value);
      }
    }
    assert font == FontOf(p.runs);

    var alignment := AlignmentLabel(p.alignment);

    var lineSpacing: Option<int> := None;
    if p.lineSpacing.Value? {
      lineSpacing := Some(TwipsToHundredthsPt(p.lineSpacing.v));
    }

    var firstLineIndent: Option<int> := None;
    if p.firstLineIndent.Value? && p.firstLineIndent.v != 0 {
      firstLineIndent := Some(EmuToHundredthsCm(p.firstLineIndent.v));
    }

    var spaceBefore: Option<int> := None;
    var spaceAfter: Option<int> := None;
    if !p.spaceBefore.Malformed? {
      if p.spaceBefore.Value? && p.spaceBefore.v != 0 {
        spaceBefore := Some(EmuToHundredthsPt(p.spaceBefore.v));
      }
      if p.spaceAfter.Value? && p.spaceAfter.v != 0 {
        spaceAfter := Some(EmuToHundredthsPt(p.spaceAfter.v));
      }
    }
    assert (spaceBefore, spaceAfter) == SpacingOf(p.spaceBefore, p.spaceAfter);

    rec := Record(i, Preview(text), text, font.name, font.sizeTenthsPt, font.isBold, font.isItalic,
      alignment, lineSpacing, firstLineIndent, spaceBefore, spaceAfter);
  }
}
