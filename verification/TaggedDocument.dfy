/** The tagged document sent to the translator and the parser of its answer (scripts/docs-i18n/doc_mode.go). */
module TaggedDocument {
  import opened Text

  const FRONT_START := "<frontmatter>"
  const FRONT_END := "</frontmatter>"
  const BODY_START := "<body>"
  const BODY_END := "</body>"

  datatype Tags = Tags(frontStart: string, frontEnd: string, bodyStart: string, bodyEnd: string)

  function DocumentTags(): Tags { Tags(FRONT_START, FRONT_END, BODY_START, BODY_END) }

  datatype Parsed = Document(front: string, body: string) | Missing(tag: string) | TextOutside

  function FormatTaggedDocument(tags: Tags, front: string, body: string): string {
    tags.frontStart
        + ("\n" + front + "\n" + (tags.frontEnd + ("\n" + (tags.bodyStart + ("\n" + body + "\n" + tags.bodyEnd)))))
  }

  function TrimTagNewlines(value: string): string {
    var tail := if value != "" && value[0] == '\n' then value[1..] else value;
    if tail != "" && tail[|tail| - 1] == '\n' then tail[..|tail| - 1] else tail
  }

  /** `strings.Index` from a position on. */
  function Finder(text: string): (nat, string) -> Option<nat> { (from, part) => IndexFrom(text, from, part) }

  datatype Sections =
    | Sections(at: nat, frontStart: nat, frontEnd: nat, bodyStart: nat, bodyEnd: nat)
    | NoTag(tag: string)

  /** What is found lies between the start of the search and the end of the text. */
  ghost predicate FindsWithin(find: (nat, string) -> Option<nat>, length: nat) {
    forall from: nat, part: string :: find(from, part).Some?
      ==> from <= find(from, part).value && find(from, part).value + |part| <= length
  }

  /** The four tags, each searched from where the one before left off. */
  function Locate(find: (nat, string) -> Option<nat>, tags: Tags): (r: Sections)
    ensures forall length: nat :: FindsWithin(find, length) ==> Ordered(tags, length, r)
  {
    var at := find(0, tags.frontStart);
    if at.None? then NoTag(tags.frontStart)
    else
      var frontStart := at.value + |tags.frontStart|;
      var frontEnd := find(frontStart, tags.frontEnd);
      if frontEnd.None? then NoTag(tags.frontEnd)
      else
        var bodyTag := find(frontEnd.value, tags.bodyStart);
        if bodyTag.None? then NoTag(tags.bodyStart)
        else
          var bodyStart := bodyTag.value + |tags.bodyStart|;
          var bodyEnd := find(bodyStart, tags.bodyEnd);
          if bodyEnd.None? then NoTag(tags.bodyEnd)
          else Sections(at.value, frontStart, frontEnd.value, bodyStart, bodyEnd.value)
  }

  function ParseTaggedDocument(tags: Tags, text: string): Parsed {
    assert FindsWithin(Finder(text), |text|);
    Cut(tags, text, Locate(Finder(text), tags))
  }

  predicate Ordered(tags: Tags, length: nat, s: Sections) {
    s.Sections? ==>
      s.at <= s.frontStart <= s.frontEnd <= s.bodyStart <= s.bodyEnd && s.bodyEnd + |tags.bodyEnd| <= length
  }

  function Cut(tags: Tags, text: string, s: Sections): Parsed
    requires Ordered(tags, |text|, s)
  {
    match s
    case NoTag(tag) => Missing(tag)
    case Sections(at, frontStart, frontEnd, bodyStart, bodyEnd) =>
      if TrimSpace(text[..at]) != "" || TrimSpace(text[bodyEnd + |tags.bodyEnd|..]) != "" then TextOutside
      else Document(TrimTagNewlines(text[frontStart..frontEnd]), TrimTagNewlines(text[bodyStart..bodyEnd]))
  }

  /** A tag opens with its only `<` and has no line break. */
  predicate IsTag(tag: string) {
    |tag| >= 2 && tag[0] == '<' && forall i :: 0 < i < |tag| ==> tag[i] != '<' && tag[i] != '\n'
  }

  predicate AreTags(tags: Tags) {
    && IsTag(tags.frontStart) && IsTag(tags.frontEnd) && IsTag(tags.bodyStart) && IsTag(tags.bodyEnd)
    && tags.frontEnd[1] != tags.bodyStart[1]
  }

  // ---------------------------------------------------------------- where the parts lie

  /** The part between two line breaks: text[from] and text[to - 1] are the breaks. */
  predicate Framed(text: string, from: nat, part: string) {
    && from + |part| + 2 <= |text| && text[from] == '\n' && text[from + 1 + |part|] == '\n'
    && text[from + 1..from + 1 + |part|] == part
  }

  lemma InsideFrame(text: string, from: nat, part: string, i: nat, tag: string)
    requires Framed(text, from, part) && IsTag(tag) && from <= i < from + |part| + 2 && OccursAt(text, i, tag)
    ensures i > from && OccursAt(part, i - from - 1, tag)
  {
    SliceSlice(text, from + 1, from + 1 + |part|, i - from - 1, i - from - 1 + |tag|);
  }

  /** A part without its closing tag is followed to its end, and trimmed back to itself. */
  lemma CleanPart(text: string, from: nat, part: string, tag: string)
    requires Framed(text, from, part) && IsTag(tag) && !Contains(part, tag)
    requires OccursAt(text, from + |part| + 2, tag)
    ensures IndexFrom(text, from, tag) == Some(from + |part| + 2)
    ensures TrimTagNewlines(text[from..from + |part| + 2]) == part
  {
    forall i | from <= i < from + |part| + 2 ensures !OccursAt(text, i, tag) {
      if OccursAt(text, i, tag) { InsideFrame(text, from, part, i, tag); }
    }
    IndexIs(text, from, tag, from + |part| + 2);
    assert text[from..from + |part| + 2][1..] == part + "\n";
  }

  /** A part with its own closing tag inside is cut short there. */
  lemma DirtyPart(text: string, from: nat, part: string, tag: string)
    requires Framed(text, from, part) && IsTag(tag) && Contains(part, tag)
    ensures var end := IndexFrom(text, from, tag);
            end.Some? && end.value >= from && |TrimTagNewlines(text[from..end.value])| < |part|
  {
    var k: nat :| OccursAt(part, k, tag);
    OccursTrans(text, from + 1, part, k, tag);
    OccursChar(text, from, tag, 0);
    var end := IndexFrom(text, from, tag).value;
    assert from < end <= from + 1 + k;
    assert text[from..end][0] == '\n';
  }

  function FrontClose(tags: Tags, front: string): nat { |tags.frontStart| + |front| + 2 }

  function BodyOpen(tags: Tags, front: string): nat { FrontClose(tags, front) + |tags.frontEnd| + 1 + |tags.bodyStart| }

  /** The layout of a formatted document, up to the body. */
  predicate FrontLaid(tags: Tags, front: string, text: string) {
    && OccursAt(text, 0, tags.frontStart) && Framed(text, |tags.frontStart|, front)
    && TagsMeet(tags, text, FrontClose(tags, front))
  }

  /** The closing front-matter tag at b, a line break, and the opening body tag. */
  predicate TagsMeet(tags: Tags, text: string, b: nat) {
    && OccursAt(text, b, tags.frontEnd) && b + |tags.frontEnd| < |text| && text[b + |tags.frontEnd|] == '\n'
    && OccursAt(text, b + |tags.frontEnd| + 1, tags.bodyStart)
  }

  predicate BodyLaid(tags: Tags, body: string, text: string, d: nat) {
    && Framed(text, d, body) && OccursAt(text, d + |body| + 2, tags.bodyEnd)
    && |text| == d + |body| + 2 + |tags.bodyEnd|
  }

  lemma TagPlace(text: string, from: nat, tag: string, rest: string)
    requires from <= |text| && text[from..] == tag + rest
    ensures OccursAt(text, from, tag) && text[from + |tag|..] == rest
  {
    assert text[from..][..|tag|] == tag && text[from..][|tag|..] == rest;
  }

  lemma FramePlace(text: string, from: nat, part: string, rest: string)
    requires from <= |text| && text[from..] == "\n" + part + "\n" + rest
    ensures Framed(text, from, part) && text[from + |part| + 2..] == rest
  {
    var tail, k := text[from..], |part|;
    assert tail[0] == '\n' && tail[1..1 + k] == part && tail[1 + k] == '\n' && tail[k + 2..] == rest;
  }

  lemma FormatIsLaid(tags: Tags, front: string, body: string, text: string)
    requires text == FormatTaggedDocument(tags, front, body)
    ensures FrontLaid(tags, front, text) && BodyLaid(tags, body, text, BodyOpen(tags, front))
  {
    var tail := "\n" + body + "\n" + tags.bodyEnd;
    FrontIsLaid(tags, front, tail, text);
    FramePlace(text, BodyOpen(tags, front), body, tags.bodyEnd);
  }

  lemma FrontIsLaid(tags: Tags, front: string, tail: string, text: string)
    requires text == tags.frontStart + ("\n" + front + "\n" + (tags.frontEnd + ("\n" + (tags.bodyStart + tail))))
    ensures FrontLaid(tags, front, text) && BodyOpen(tags, front) <= |text| && text[BodyOpen(tags, front)..] == tail
  {
    var b := FrontClose(tags, front);
    var meet := tags.frontEnd + ("\n" + (tags.bodyStart + tail));
    TagPlace(text, 0, tags.frontStart, "\n" + front + "\n" + meet);
    FramePlace(text, |tags.frontStart|, front, meet);
    MeetPlace(tags, text, b, tail);
  }

  lemma MeetPlace(tags: Tags, text: string, b: nat, tail: string)
    requires b <= |text| && text[b..] == tags.frontEnd + ("\n" + (tags.bodyStart + tail))
    ensures TagsMeet(tags, text, b) && text[b + |tags.frontEnd| + 1 + |tags.bodyStart|..] == tail
  {
    TagPlace(text, b, tags.frontEnd, "\n" + (tags.bodyStart + tail));
    TagPlace(text, b + |tags.frontEnd|, "\n", tags.bodyStart + tail);
    TagPlace(text, b + |tags.frontEnd| + 1, tags.bodyStart, tail);
  }

  // ---------------------------------------------------------------- the round trip

  /** From the end of the front matter the parser finds the opening body tag. */
  lemma BodyTagFound(tags: Tags, text: string, b: nat)
    requires AreTags(tags) && TagsMeet(tags, text, b)
    ensures IndexFrom(text, b, tags.bodyStart) == Some(b + |tags.frontEnd| + 1)
  {
    var at := b + |tags.frontEnd| + 1;
    forall i | b <= i < at ensures !OccursAt(text, i, tags.bodyStart) {
      OccursChar(text, i, tags.bodyStart, 0);
      OccursChar(text, i, tags.bodyStart, 1);
      if i < at - 1 { OccursChar(text, b, tags.frontEnd, i - b); }
      OccursChar(text, b, tags.frontEnd, 1);
    }
    IndexIs(text, b, tags.bodyStart, at);
  }

  lemma LocateFront(find: (nat, string) -> Option<nat>, tags: Tags, frontEnd: nat)
    requires find(0, tags.frontStart) == Some(0) && find(|tags.frontStart|, tags.frontEnd) == Some(frontEnd)
    ensures Locate(find, tags).Sections?
           ==> Locate(find, tags).frontStart == |tags.frontStart| && Locate(find, tags).frontEnd == frontEnd
  {}

  lemma CutFront(tags: Tags, front: string, body: string, text: string)
    requires AreTags(tags) && FrontLaid(tags, front, text) && Contains(front, tags.frontEnd)
    ensures ParseTaggedDocument(tags, text) != Document(front, body)
  {
    IndexIs(text, 0, tags.frontStart, 0);
    DirtyPart(text, |tags.frontStart|, front, tags.frontEnd);
    LocateFront(Finder(text), tags, IndexFrom(text, |tags.frontStart|, tags.frontEnd).value);
  }

  lemma EchoedFront(tags: Tags, front: string, text: string)
    requires AreTags(tags) && FrontLaid(tags, front, text) && !Contains(front, tags.frontEnd)
    ensures Finder(text)(0, tags.frontStart) == Some(0)
    ensures Finder(text)(|tags.frontStart|, tags.frontEnd) == Some(FrontClose(tags, front))
    ensures TrimTagNewlines(text[|tags.frontStart|..FrontClose(tags, front)]) == front
  {
    IndexIs(text, 0, tags.frontStart, 0);
    CleanPart(text, |tags.frontStart|, front, tags.frontEnd);
  }

  /** Where the body closes, and what is cut out up to there. */
  lemma EchoedBody(tags: Tags, body: string, text: string, d: nat) returns (end: nat)
    requires AreTags(tags) && BodyLaid(tags, body, text, d)
    ensures d <= end && end + |tags.bodyEnd| <= |text| && Finder(text)(d, tags.bodyEnd) == Some(end)
    ensures TrimTagNewlines(text[d..end]) == body <==> !Contains(body, tags.bodyEnd)
    ensures !Contains(body, tags.bodyEnd) ==> end + |tags.bodyEnd| == |text|
  {
    if Contains(body, tags.bodyEnd) {
      DirtyPart(text, d, body, tags.bodyEnd);
    } else {
      CleanPart(text, d, body, tags.bodyEnd);
    }
    end := IndexFrom(text, d, tags.bodyEnd).value;
  }

  lemma CleanFrontLocated(tags: Tags, front: string, body: string, text: string) returns (end: nat)
    requires AreTags(tags) && FrontLaid(tags, front, text) && BodyLaid(tags, body, text, BodyOpen(tags, front))
    requires !Contains(front, tags.frontEnd)
    ensures Locate(Finder(text), tags)
           == Sections(0, |tags.frontStart|, FrontClose(tags, front), BodyOpen(tags, front), end)
    ensures BodyOpen(tags, front) <= end && end + |tags.bodyEnd| <= |text|
    ensures TrimTagNewlines(text[BodyOpen(tags, front)..end]) == body <==> !Contains(body, tags.bodyEnd)
    ensures !Contains(body, tags.bodyEnd) ==> end + |tags.bodyEnd| == |text|
  {
    end := EchoedBody(tags, body, text, BodyOpen(tags, front));
    LocateEchoed(tags, front, text, end);
  }

  lemma LocateEchoed(tags: Tags, front: string, text: string, end: nat)
    requires AreTags(tags) && FrontLaid(tags, front, text) && !Contains(front, tags.frontEnd)
    requires Finder(text)(BodyOpen(tags, front), tags.bodyEnd) == Some(end)
    ensures Locate(Finder(text), tags)
           == Sections(0, |tags.frontStart|, FrontClose(tags, front), BodyOpen(tags, front), end)
  {
    EchoedFront(tags, front, text);
    BodyTagFound(tags, text, FrontClose(tags, front));
  }

  lemma CleanFront(tags: Tags, front: string, body: string, text: string, s: Sections)
    requires AreTags(tags) && FrontLaid(tags, front, text) && BodyLaid(tags, body, text, BodyOpen(tags, front))
    requires !Contains(front, tags.frontEnd) && s == Locate(Finder(text), tags) && Ordered(tags, |text|, s)
    ensures Cut(tags, text, s) == Document(front, body) <==> !Contains(body, tags.bodyEnd)
  {
    var end := CleanFrontLocated(tags, front, body, text);
    EchoedFront(tags, front, text);
  }

  lemma LaidIff(tags: Tags, front: string, body: string, text: string)
    requires AreTags(tags) && FrontLaid(tags, front, text) && BodyLaid(tags, body, text, BodyOpen(tags, front))
    ensures ParseTaggedDocument(tags, text) == Document(front, body)
       <==> !Contains(front, tags.frontEnd) && !Contains(body, tags.bodyEnd)
  {
    if Contains(front, tags.frontEnd) {
      CutFront(tags, front, body, text);
    } else {
      assert FindsWithin(Finder(text), |text|);
      CleanFront(tags, front, body, text, Locate(Finder(text), tags));
    }
  }

  /** Parsing an echoed document gives back its two parts exactly when neither contains the tag that closes it. */
  lemma EchoedDocumentIff(front: string, body: string)
    ensures ParseTaggedDocument(DocumentTags(), FormatTaggedDocument(DocumentTags(), front, body))
           == Document(front, body)
       <==> !Contains(front, FRONT_END) && !Contains(body, BODY_END)
  {
    EchoedIff(DocumentTags(), front, body);
  }

  lemma EchoedIff(tags: Tags, front: string, body: string)
    requires AreTags(tags)
    ensures ParseTaggedDocument(tags, FormatTaggedDocument(tags, front, body)) == Document(front, body)
       <==> !Contains(front, tags.frontEnd) && !Contains(body, tags.bodyEnd)
  {
    FormatIsLaid(tags, front, body, FormatTaggedDocument(tags, front, body));
    LaidIff(tags, front, body, FormatTaggedDocument(tags, front, body));
  }

  // ---------------------------------------------------------------- text around the document

  lemma OccursInside(text: string, a: nat, f: string, i: nat, part: string)
    requires OccursAt(text, a, f) && i + |part| <= |f|
    ensures OccursAt(text, a + i, part) <==> OccursAt(f, i, part)
  {
    SliceSlice(text, a, a + |f|, i, i + |part|);
  }

  /** What is found in a text is found at the same place of it within a longer one. */
  lemma IndexInside(text: string, a: nat, f: string, from: nat, part: string, k: nat)
    requires OccursAt(text, a, f) && IndexFrom(f, from, part) == Some(k)
    ensures IndexFrom(text, a + from, part) == Some(a + k)
  {
    OccursInside(text, a, f, k, part);
    forall i: nat | a + from <= i < a + k ensures !OccursAt(text, i, part) { OccursInside(text, a, f, i - a, part); }
    IndexIs(text, a + from, part, a + k);
  }

  lemma NotBefore(text: string, a: nat, tag: string, i: nat)
    requires IsTag(tag) && OccursAt(text, a, tag) && !Contains(text[..a], tag) && i < a
    ensures !OccursAt(text, i, tag)
  {
    if i + |tag| <= a {
      assert text[..a][i..i + |tag|] == text[i..i + |tag|];
      assert !OccursAt(text[..a], i, tag);
    } else {
      OccursChar(text, i, tag, a - i);
      OccursChar(text, a, tag, 0);
    }
  }

  lemma FirstBehind(text: string, a: nat, tag: string)
    requires IsTag(tag) && OccursAt(text, a, tag) && !Contains(text[..a], tag)
    ensures IndexFrom(text, 0, tag) == Some(a)
  {
    forall i: nat | i < a ensures !OccursAt(text, i, tag) { NotBefore(text, a, tag, i); }
    IndexIs(text, 0, tag, a);
  }

  function Shifted(s: Sections, k: nat): Sections {
    if s.NoTag? then s
    else Sections(s.at + k, s.frontStart + k, s.frontEnd + k, s.bodyStart + k, s.bodyEnd + k)
  }

  /** These are the places that the searches find. */
  predicate FoundAt(find: (nat, string) -> Option<nat>, tags: Tags, s: Sections) {
    && s.Sections? && find(0, tags.frontStart) == Some(s.at) && s.frontStart == s.at + |tags.frontStart|
    && find(s.frontStart, tags.frontEnd) == Some(s.frontEnd) && s.bodyStart >= |tags.bodyStart|
    && find(s.frontEnd, tags.bodyStart) == Some(s.bodyStart - |tags.bodyStart|)
    && find(s.bodyStart, tags.bodyEnd) == Some(s.bodyEnd)
  }

  lemma LocatedIff(find: (nat, string) -> Option<nat>, tags: Tags, s: Sections)
    requires s.Sections?
    ensures Locate(find, tags) == s <==> FoundAt(find, tags, s)
  {}

  /** What the one search finds, the other finds a places later. */
  ghost predicate Shifts(find: (nat, string) -> Option<nat>, other: (nat, string) -> Option<nat>, a: nat) {
    forall from: nat, part: string :: find(from, part).Some?
      ==> other(a + from, part) == Some(a + find(from, part).value)
  }

  lemma ShiftFound(find: (nat, string) -> Option<nat>, other: (nat, string) -> Option<nat>, tags: Tags, s: Sections,
                   a: nat)
    requires FoundAt(find, tags, s) && s.at == 0 && Shifts(find, other, a) && other(0, tags.frontStart) == Some(a)
    ensures FoundAt(other, tags, Shifted(s, a))
  {
    assert find(s.frontStart, tags.frontEnd).Some? && find(s.frontEnd, tags.bodyStart).Some?;
    assert find(s.bodyStart, tags.bodyEnd).Some?;
  }

  lemma FinderInside(text: string, a: nat, f: string, from: nat, part: string)
    requires OccursAt(text, a, f) && Finder(f)(from, part).Some?
    ensures Finder(text)(a + from, part) == Some(a + Finder(f)(from, part).value)
  {
    IndexInside(text, a, f, from, part, IndexFrom(f, from, part).value);
  }

  lemma FinderShifts(text: string, a: nat, f: string)
    requires OccursAt(text, a, f)
    ensures Shifts(Finder(f), Finder(text), a)
  {
    var find, other := Finder(f), Finder(text);
    forall from: nat, part: string | find(from, part).Some?
      ensures other(a + from, part) == Some(a + find(from, part).value)
    {
      FinderInside(text, a, f, from, part);
    }
  }

  lemma LocatedShifted(find: (nat, string) -> Option<nat>, other: (nat, string) -> Option<nat>, tags: Tags,
                       s: Sections, a: nat)
    requires s.Sections? && s.at == 0 && Locate(find, tags) == s
    requires Shifts(find, other, a) && other(0, tags.frontStart) == Some(a)
    ensures Locate(other, tags) == Shifted(s, a)
  {
    LocatedIff(find, tags, s);
    ShiftFound(find, other, tags, s, a);
    LocatedIff(other, tags, Shifted(s, a));
  }

  lemma LocateInside(tags: Tags, text: string, a: nat, f: string, s: Sections)
    requires AreTags(tags) && OccursAt(text, a, f) && OccursAt(f, 0, tags.frontStart) && s.Sections? && s.at == 0
    requires !Contains(text[..a], tags.frontStart) && Locate(Finder(f), tags) == s
    ensures Locate(Finder(text), tags) == Shifted(s, a)
  {
    OccursInside(text, a, f, 0, tags.frontStart);
    FirstBehind(text, a, tags.frontStart);
    FinderShifts(text, a, f);
    LocatedShifted(Finder(f), Finder(text), tags, s, a);
  }

  lemma BlankIff(text: string)
    ensures TrimSpace(text) == "" <==> IsBlank(text)
  {
    var i, k := TrimSpaceMeaning(text);
  }

  lemma CutAs(tags: Tags, text: string, s: Sections, front: string, body: string, x: string, y: string)
    requires s.Sections? && Ordered(tags, |text|, s) && text[..s.at] == x && text[s.bodyEnd + |tags.bodyEnd|..] == y
    requires text[s.frontStart..s.frontEnd] == front && text[s.bodyStart..s.bodyEnd] == body
    ensures Cut(tags, text, s)
         == if IsBlank(x) && IsBlank(y) then Document(TrimTagNewlines(front), TrimTagNewlines(body)) else TextOutside
  {
    BlankIff(x);
    BlankIff(y);
  }

  lemma CutInside(tags: Tags, text: string, a: nat, f: string, s: Sections)
    requires OccursAt(text, a, f) && s.Sections? && Ordered(tags, |f|, s) && s.at == 0
    requires s.bodyEnd + |tags.bodyEnd| == |f|
    ensures Ordered(tags, |text|, Shifted(s, a))
    ensures Cut(tags, text, Shifted(s, a))
         == if IsBlank(text[..a]) && IsBlank(text[a + |f|..])
            then Document(TrimTagNewlines(f[s.frontStart..s.frontEnd]), TrimTagNewlines(f[s.bodyStart..s.bodyEnd]))
            else TextOutside
  {
    SliceSlice(text, a, a + |f|, s.frontStart, s.frontEnd);
    SliceSlice(text, a, a + |f|, s.bodyStart, s.bodyEnd);
    CutAs(tags, text, Shifted(s, a), f[s.frontStart..s.frontEnd], f[s.bodyStart..s.bodyEnd],
        text[..a], text[a + |f|..]);
  }

  lemma LaidInside(tags: Tags, front: string, body: string, text: string, a: nat, f: string)
    requires AreTags(tags) && FrontLaid(tags, front, f) && BodyLaid(tags, body, f, BodyOpen(tags, front))
    requires !Contains(front, tags.frontEnd) && !Contains(body, tags.bodyEnd)
    requires OccursAt(text, a, f) && !Contains(text[..a], tags.frontStart)
    ensures ParseTaggedDocument(tags, text)
         == if IsBlank(text[..a]) && IsBlank(text[a + |f|..]) then Document(front, body) else TextOutside
  {
    var end := CleanFrontLocated(tags, front, body, f);
    var s := Sections(0, |tags.frontStart|, FrontClose(tags, front), BodyOpen(tags, front), end);
    EchoedFront(tags, front, f);
    LocateInside(tags, text, a, f, s);
    assert FindsWithin(Finder(text), |text|);
    CutInside(tags, text, a, f, s);
  }

  lemma Around(x: string, f: string, y: string, text: string)
    requires text == x + f + y
    ensures OccursAt(text, |x|, f) && text[..|x|] == x && text[|x| + |f|..] == y
  {}

  /**
   A formatted document whose parts are clean is accepted between white space, and rejected with any other text around
   it, provided that no earlier opening tag is in that text.
   */
  lemma TextAroundRejected(front: string, body: string, x: string, y: string, text: string)
    requires !Contains(front, FRONT_END) && !Contains(body, BODY_END) && !Contains(x, FRONT_START)
    requires text == x + FormatTaggedDocument(DocumentTags(), front, body) + y
    ensures ParseTaggedDocument(DocumentTags(), text)
         == if IsBlank(x) && IsBlank(y) then Document(front, body) else TextOutside
  {
    AroundRejected(DocumentTags(), front, body, x, y, text);
  }

  lemma AroundRejected(tags: Tags, front: string, body: string, x: string, y: string, text: string)
    requires AreTags(tags) && !Contains(front, tags.frontEnd) && !Contains(body, tags.bodyEnd)
    requires !Contains(x, tags.frontStart) && text == x + FormatTaggedDocument(tags, front, body) + y
    ensures ParseTaggedDocument(tags, text) == if IsBlank(x) && IsBlank(y) then Document(front, body) else TextOutside
  {
    var f := FormatTaggedDocument(tags, front, body);
    FormatIsLaid(tags, front, body, f);
    Around(x, f, y, text);
    LaidInside(tags, front, body, text, |x|, f);
  }

  /** What is sent. */
  lemma FormatSpelled(front: string, body: string)
    ensures FormatTaggedDocument(DocumentTags(), front, body)
         == "<frontmatter>" + "\n" + front + "\n" + "</frontmatter>" + "\n" + "<body>" + "\n" + body + "\n" + "</body>"
  {
    FormatParts(DocumentTags(), "\n", front, body);
  }

  lemma FormatParts(tags: Tags, br: string, front: string, body: string)
    requires br == "\n"
    ensures FormatTaggedDocument(tags, front, body)
         == tags.frontStart + br + front + br + tags.frontEnd + br + tags.bodyStart + br + body + br + tags.bodyEnd
  {
    var last := br + body + br + tags.bodyEnd;
    var middle := br + (tags.bodyStart + last);
    assert tags.frontStart + (br + front + br + (tags.frontEnd + middle))
        == tags.frontStart + br + front + br + tags.frontEnd + middle;
    var head := tags.frontStart + br + front + br + tags.frontEnd;
    assert head + middle == head + br + tags.bodyStart + last;
    var upTo := head + br + tags.bodyStart;
    assert upTo + last == upTo + br + body + br + tags.bodyEnd;
  }
}
