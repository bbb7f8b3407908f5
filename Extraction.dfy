/** `extract_paragraph_formatting`: walk the paragraphs of a loaded document
    in order, drop those whose stripped text is empty, and build one record
    for each of the others, tagged with its position in the full list. */
module Extraction {
  import opened Wrappers
  import opened Text
  import opened Formatting

  /** The message of the one failure: the loader's own message behind a fixed
      prefix. */
  const ReadErrorPrefix: string := "Word文件读取失败: "

  /** The positions of the non-blank paragraphs, in order: the paragraphs the
      extractor keeps. */
  function KeptIndices(ps: seq<Paragraph>): (ks: seq<nat>)
    ensures |ks| <= |ps|
    ensures forall k :: 0 <= k < |ks| ==> ks[k] < |ps| && !Blank(ps[ks[k]].text)
    ensures forall k, l :: 0 <= k < l < |ks| ==> ks[k] < ks[l]
  {
    if ps == [] then []
    else
      var n := |ps| - 1;
      var pre := KeptIndices(ps[..n]);
      assert forall k :: 0 <= k < |pre| ==> ps[pre[k]] == ps[..n][pre[k]];
      pre + (if Blank(ps[n].text) then [] else [n])
  }

  /** The records of a paragraph list: one per kept paragraph, in order. */
  function Extracted(ps: seq<Paragraph>): (out: seq<Record>)
    ensures |out| == |KeptIndices(ps)|
  {
    var ks := KeptIndices(ps);
    seq(|ks|, k requires 0 <= k < |ks| => RecordOf(ks[k], ps[ks[k]]))
  }

  /** The extractor. `loaded` is what the document loader returned: the parsed
      document, or the message of the exception it raised. */
  method ExtractParagraphFormatting(loaded: Result<Document, string>)
    returns (result: Result<seq<Record>, string>)
    ensures loaded.Failure? ==> result == Failure(ReadErrorPrefix + loaded.error)
    ensures loaded.Success? ==> result == Success(Extracted(loaded.value.paragraphs))
  {
    if loaded.Failure? {
      return Failure(ReadErrorPrefix + loaded.error);
    }
    var paragraphs := loaded.value.paragraphs;
    var records: seq<Record> := [];
    var i := 0;
    while i < |paragraphs|
      invariant 0 <= i <= |paragraphs|
      invariant records == Extracted(paragraphs[..i])
    {
      var para := paragraphs[i];
      var text := Strip(para.text);
      ExtractedStep(paragraphs, i);
      if text == [] {
        i := i + 1;
        continue;
      }
      var rec := NormalizeParagraph(i, para, text);
      records := records + [rec];
      i := i + 1;
    }
    assert paragraphs[..i] == paragraphs;
    return Success(records);
  }

  /** One more paragraph adds its record, or nothing when it is blank. */
  lemma ExtractedStep(ps: seq<Paragraph>, i: nat)
    requires i < |ps|
    ensures Extracted(ps[..i + 1])
      == Extracted(ps[..i]) + (if Blank(ps[i].text) then [] else [RecordOf(i, ps[i])])
  {
    var pre, cur := ps[..i], ps[..i + 1];
    assert cur[..i] == pre;
    var ks := KeptIndices(pre);
    assert KeptIndices(cur) == ks + (if Blank(ps[i].text) then [] else [i]);
    var a, b := Extracted(pre), Extracted(cur);
    forall k | 0 <= k < |ks| ensures b[k] == a[k] {
      assert cur[ks[k]] == pre[ks[k]];
    }
  }

  /** There are never more records than paragraphs, and there are as many
      exactly when no paragraph is blank. */
  lemma {:induction false} ExtractedCount(ps: seq<Paragraph>)
    ensures |Extracted(ps)| <= |ps|
    ensures |Extracted(ps)| == |ps| <==> forall i :: 0 <= i < |ps| ==> !Blank(ps[i].text)
  {
    KeptCount(ps);
  }

  lemma {:induction false} KeptCount(ps: seq<Paragraph>)
    ensures |KeptIndices(ps)| == |ps| <==> forall i :: 0 <= i < |ps| ==> !Blank(ps[i].text)
  {
    if ps != [] {
      var n := |ps| - 1;
      var pre := ps[..n];
      KeptCount(pre);
      assert forall i :: 0 <= i < n ==> ps[i] == pre[i];
    }
  }

  /** Every record carries the position of its paragraph in the full list,
      and positions strictly increase along the output. */
  lemma ExtractedIndices(ps: seq<Paragraph>)
    ensures forall k :: 0 <= k < |Extracted(ps)| ==> Extracted(ps)[k].index < |ps|
    ensures forall k, l :: 0 <= k < l < |Extracted(ps)| ==> Extracted(ps)[k].index < Extracted(ps)[l].index
  {
    var ks, out := KeptIndices(ps), Extracted(ps);
    assert forall k :: 0 <= k < |out| ==> out[k].index == ks[k];
  }

  /** Each record is the record of a non-blank paragraph at its index: its
      full text is that paragraph's stripped text, and its other fields are
      derived from that paragraph alone. */
  lemma ExtractedRecords(ps: seq<Paragraph>)
    ensures forall k :: 0 <= k < |Extracted(ps)| ==>
      var r := Extracted(ps)[k];
      && r.index < |ps|
      && !Blank(ps[r.index].text)
      && r.fullText == Strip(ps[r.index].text)
      && r == RecordOf(r.index, ps[r.index])
  {
    var ks, out := KeptIndices(ps), Extracted(ps);
    assert forall k :: 0 <= k < |out| ==> out[k].index == ks[k];
  }

  /** No non-blank paragraph is lost: each has a record carrying its index. */
  lemma ExtractedComplete(ps: seq<Paragraph>)
    ensures forall i :: 0 <= i < |ps| && !Blank(ps[i].text) ==>
      exists k :: 0 <= k < |Extracted(ps)| && Extracted(ps)[k].index == i
  {
    var ks, out := KeptIndices(ps), Extracted(ps);
    KeptComplete(ps);
    forall i | 0 <= i < |ps| && !Blank(ps[i].text)
      ensures exists k :: 0 <= k < |out| && out[k].index == i
    {
      var k :| 0 <= k < |ks| && ks[k] == i;
      assert out[k].index == i;
    }
  }

  lemma {:induction false} KeptComplete(ps: seq<Paragraph>)
    ensures forall i :: 0 <= i < |ps| && !Blank(ps[i].text) ==> i in KeptIndices(ps)
  {
    if ps != [] {
      var n := |ps| - 1;
      var pre := ps[..n];
      KeptComplete(pre);
      assert forall i :: 0 <= i < n ==> ps[i] == pre[i];
    }
  }

  /** Which paragraphs are kept depends on their text alone: two documents
      whose paragraphs have the same texts give records with the same indices
      and the same texts, whatever their runs and measurements. */
  lemma FilterDependsOnTextOnly(ps: seq<Paragraph>, qs: seq<Paragraph>)
    requires |ps| == |qs|
    requires forall i :: 0 <= i < |ps| ==> ps[i].text == qs[i].text
    ensures |Extracted(ps)| == |Extracted(qs)|
    ensures forall k :: 0 <= k < |Extracted(ps)| ==>
      Extracted(ps)[k].index == Extracted(qs)[k].index
      && Extracted(ps)[k].fullText == Extracted(qs)[k].fullText
  {
    KeptSameTexts(ps, qs);
    var ks, a, b := KeptIndices(ps), Extracted(ps), Extracted(qs);
    forall k | 0 <= k < |a| ensures a[k].index == b[k].index && a[k].fullText == b[k].fullText {
      assert a[k] == RecordOf(ks[k], ps[ks[k]]);
      assert b[k] == RecordOf(ks[k], qs[ks[k]]);
    }
  }

  lemma {:induction false} KeptSameTexts(ps: seq<Paragraph>, qs: seq<Paragraph>)
    requires |ps| == |qs|
    requires forall i :: 0 <= i < |ps| ==> ps[i].text == qs[i].text
    ensures KeptIndices(ps) == KeptIndices(qs)
  {
    if ps != [] {
      var n := |ps| - 1;
      KeptSameTexts(ps[..n], qs[..n]);
    }
  }
}
