/** A whole document through the translator in one prompt (scripts/docs-i18n/doc_mode.go, processFileDoc). */
module ProcessFileDoc {
  import opened Text
  import opened FrontMatter
  import opened FrontMarkers
  import opened MarkerRoundTrip
  import opened FrontTranslations
  import opened TaggedDocument
  import opened TaggedAnswers

  datatype Outcome = Written(output: string) | TaggedOutputInvalid | FrontMatterRemoved | MarkerLost(marker: string)

  /** What is sent to the translator. */
  function TaggedInput(front: Front, body: string): string {
    FormatTaggedDocument(DocumentTags(), TemplateText(LinesOf(front)), body)
  }

  /** From the translator's answer to the file; `encode` writes the front matter, `sourceFront` is its source text. */
  function ProcessAnswer(front: Front, sourceFront: string, answer: string, encode: Front -> string): Outcome {
    var parsed := ParseTaggedDocument(DocumentTags(), answer);
    if !parsed.Document? then TaggedOutputInvalid
    else if sourceFront != "" && TrimSpace(parsed.front) == "" then FrontMatterRemoved
    else
      var applied := Applied(front, MarkersOf(LinesOf(front)), parsed.front);
      if applied.1.Some? then MarkerLost(applied.1.value) else Written(FencedBlock(encode(applied.0)) + parsed.body)
  }

  /** Nothing in the front matter is sent for translation. */
  predicate NothingToTranslate(front: Front) { !front.summary.Str? && !front.title.Str? && !front.readWhen.List? }

  lemma TemplateBlankIff(front: Front)
    ensures TrimSpace(TemplateText(LinesOf(front))) == "" <==> NothingToTranslate(front)
  {
    var lines, text := LinesOf(front), TemplateText(LinesOf(front));
    var i, k := TrimSpaceMeaning(text);
    if NothingToTranslate(front) {
      assert lines == [];
      assert TrimSpace("") == "";
    } else {
      FirstCharacter(front);
    }
  }

  lemma FirstCharacter(front: Front)
    requires !NothingToTranslate(front)
    ensures var text := TemplateText(LinesOf(front)); text != "" && !IsSpace(text[0])
  {
    var lines := LinesOf(front);
    assert lines != [];
    var first := Shown(lines[0]);
    if front.summary.Str? {
      assert first[0] == "summary: "[0];
    } else if front.title.Str? {
      assert first[0] == "title: "[0];
    } else {
      assert lines[0] == Plain("read_when:");
    }
    assert ShownLines(lines)[0] == first;
    RowLies(ShownLines(lines), 0);
    OccursChar(TemplateText(lines), 0, first, 0);
  }

  /**
   * An echoing translator: the file is written with its values trimmed and its body kept, unless its front matter has
   * nothing to translate, which is taken for a removed front matter.
   */
  lemma EchoedDocument(front: Front, sourceFront: string, body: string, encode: Front -> string)
    requires !Contains(TemplateText(LinesOf(front)), FRONT_END) && !Contains(body, BODY_END)
           && AllUnspoilt(LinesOf(front))
    ensures ProcessAnswer(front, sourceFront, TaggedInput(front, body), encode)
         == if sourceFront != "" && NothingToTranslate(front) then FrontMatterRemoved
            else Written(FencedBlock(encode(TrimmedFront(front))) + body)
  {
    EchoedDocumentIff(TemplateText(LinesOf(front)), body);
    TemplateBlankIff(front);
    EchoedTemplateTrims(front);
  }

  /** The written file reads back as the encoded front matter and the source body. */
  lemma EchoedDocumentReadsBack(front: Front, sourceFront: string, body: string, encode: Front -> string,
                                encoded: string)
    requires !Contains(TemplateText(LinesOf(front)), FRONT_END) && !Contains(body, BODY_END)
           && AllUnspoilt(LinesOf(front))
    requires sourceFront == "" || !NothingToTranslate(front)
    requires encode(TrimmedFront(front)) == encoded + "\n" && !HasFence(encoded)
    ensures var outcome := ProcessAnswer(front, sourceFront, TaggedInput(front, body), encode);
            outcome.Written? && Split(outcome.output) == (encoded, body)
  {
    EchoedDocument(front, sourceFront, body, encode);
    WrittenReadsBackIff(encoded, body);
  }

  // ---------------------------------------------------------------- any answer

  /** The answer is the four sections with nothing but white space around them. */
  ghost predicate IsAnswer(answer: string, p: Parts) {
    && HasSections(DocumentTags(), answer, p) && IsBlank(p.outside)
    && IsBlank(answer[PlacesOf(DocumentTags(), p).bodyEnd + |BODY_END|..])
  }

  lemma AnswerParsed(answer: string, p: Parts)
    requires IsAnswer(answer, p)
    ensures ParseTaggedDocument(DocumentTags(), answer)
         == Document(TrimTagNewlines(p.front), TrimTagNewlines(p.body))
  {
    PartsParsed(DocumentTags(), answer, p, answer[PlacesOf(DocumentTags(), p).bodyEnd + |BODY_END|..]);
  }

  /**
   * A translation is written: the values that the answer has between the markers, trimmed, and the body of the answer,
   * whatever stands between its sections. An answer without front matter is only taken where there was none.
   */
  lemma TranslatedDocument(front: Front, translated: Front, sourceFront: string, answer: string, p: Parts,
                           encode: Front -> string)
    requires IsAnswer(answer, p) && SameShape(front, translated)
    requires AllExtracted(LinesOf(translated), TrimTagNewlines(p.front))
    ensures ProcessAnswer(front, sourceFront, answer, encode)
         == if sourceFront != "" && IsBlank(TrimTagNewlines(p.front)) then FrontMatterRemoved
            else Written(FencedBlock(encode(TrimmedFront(translated))) + TrimTagNewlines(p.body))
  {
    AnswerParsed(answer, p);
    BlankIff(TrimTagNewlines(p.front));
    TranslationApplies(front, translated, TrimTagNewlines(p.front));
  }

  /** Nothing is written when a marker is lost, or a section. */
  lemma LostMarker(front: Front, sourceFront: string, answer: string, p: Parts, encode: Front -> string, n: nat)
    requires IsAnswer(answer, p) && !IsBlank(TrimTagNewlines(p.front)) && n < |MarkersOf(LinesOf(front))|
    requires var m, text := MarkersOf(LinesOf(front)), TrimTagNewlines(p.front);
             && Applied(front, m[..n], text).1.None?
             && ExtractMarkerValue(text, m[n].start, m[n].end).MissingMarker?
    ensures var m := MarkersOf(LinesOf(front))[n];
            ProcessAnswer(front, sourceFront, answer, encode)
            == MarkerLost(ExtractMarkerValue(TrimTagNewlines(p.front), m.start, m.end).marker)
  {
    AnswerParsed(answer, p);
    BlankIff(TrimTagNewlines(p.front));
    FirstLostMarker(front, MarkersOf(LinesOf(front)), n, TrimTagNewlines(p.front));
  }
}
