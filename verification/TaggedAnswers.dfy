/** What the parser of tagged documents makes of any answer, not only of an echoed one. */
module TaggedAnswers {
  import opened Text
  import opened TaggedDocument

  // ---------------------------------------------------------------- sections

  /** One line break, or nothing. */
  predicate IsBreak(text: string) { text == "" || text == "\n" }

  /** Of a section one line break is dropped at either end, if there is one, and nothing else. */
  lemma TrimmedSection(value: string) returns (left: string, right: string)
    ensures value == left + TrimTagNewlines(value) + right && IsBreak(left) && IsBreak(right)
    ensures left == "" ==> value == "" || value[0] != '\n'
    ensures right == "" ==> TrimTagNewlines(value) == "" || TrimTagNewlines(value)[|TrimTagNewlines(value)| - 1] != '\n'
  {
    left := if value != "" && value[0] == '\n' then "\n" else "";
    var tail := if left != "" then value[1..] else value;
    right := if tail != "" && tail[|tail| - 1] == '\n' then "\n" else "";
    assert value == left + tail;
    assert tail == TrimTagNewlines(value) + right;
  }

  // ---------------------------------------------------------------- searches

  /** From `from` on the text has `before`, which does not hold the tag, and then the tag. */
  ghost predicate Leads(text: string, from: nat, before: string, tag: string) {
    && from + |before| + |tag| <= |text| && text[from..from + |before|] == before
    && OccursAt(text, from + |before|, tag) && !Contains(before, tag)
  }

  lemma NotWithin(text: string, from: nat, before: string, tag: string, i: nat)
    requires IsTag(tag) && Leads(text, from, before, tag) && from <= i < from + |before|
    ensures !OccursAt(text, i, tag)
  {
    var at := from + |before|;
    if i + |tag| <= at {
      SliceSlice(text, from, at, i - from, i - from + |tag|);
      assert !OccursAt(before, i - from, tag);
    } else {
      OccursChar(text, i, tag, at - i);
      OccursChar(text, at, tag, 0);
    }
  }

  lemma TagFound(text: string, from: nat, before: string, tag: string)
    requires IsTag(tag) && Leads(text, from, before, tag)
    ensures Finder(text)(from, tag) == Some(from + |before|)
  {
    forall i: nat | from <= i < from + |before| ensures !OccursAt(text, i, tag) {
      NotWithin(text, from, before, tag, i);
    }
    IndexIs(text, from, tag, from + |before|);
  }

  lemma NeverFound(text: string, from: nat, tag: string)
    requires from <= |text| && !Contains(text[from..], tag)
    ensures Finder(text)(from, tag) == None
  {
    if IndexFrom(text, from, tag).Some? {
      var k := IndexFrom(text, from, tag).value;
      assert text[from..][k - from..k - from + |tag|] == text[k..k + |tag|];
      assert OccursAt(text[from..], k - from, tag);
    }
  }

  // ---------------------------------------------------------------- parsing

  /** What stands in front of the four tags, in order. */
  datatype Parts = Parts(outside: string, front: string, gap: string, body: string)

  function PlacesOf(tags: Tags, p: Parts): Sections {
    var frontStart := |p.outside| + |tags.frontStart|;
    var bodyStart := frontStart + |p.front| + |p.gap| + |tags.bodyStart|;
    Sections(|p.outside|, frontStart, frontStart + |p.front|, bodyStart, bodyStart + |p.body|)
  }

  /** The answer is these parts with their tags, none of which stands earlier. */
  ghost predicate HasSections(tags: Tags, text: string, p: Parts) {
    var s := PlacesOf(tags, p);
    && Leads(text, 0, p.outside, tags.frontStart) && Leads(text, s.frontStart, p.front, tags.frontEnd)
    && Leads(text, s.frontEnd, p.gap, tags.bodyStart) && Leads(text, s.bodyStart, p.body, tags.bodyEnd)
  }

  /** What the searches find of the front part. */
  predicate FrontFoundAt(find: (nat, string) -> Option<nat>, tags: Tags, s: Sections) {
    s.Sections? && find(0, tags.frontStart) == Some(s.at) && find(s.frontStart, tags.frontEnd) == Some(s.frontEnd)
  }

  /** And of the body. */
  predicate BodyFoundAt(find: (nat, string) -> Option<nat>, tags: Tags, s: Sections) {
    && s.Sections? && s.bodyStart >= |tags.bodyStart| && find(s.bodyStart, tags.bodyEnd) == Some(s.bodyEnd)
    && find(s.frontEnd, tags.bodyStart) == Some(s.bodyStart - |tags.bodyStart|)
  }

  lemma FrontFound(tags: Tags, text: string, p: Parts, s: Sections)
    requires AreTags(tags) && s == PlacesOf(tags, p)
    requires Leads(text, 0, p.outside, tags.frontStart) && Leads(text, s.frontStart, p.front, tags.frontEnd)
    ensures FrontFoundAt(Finder(text), tags, s)
  {
    TagFound(text, 0, p.outside, tags.frontStart);
    TagFound(text, s.frontStart, p.front, tags.frontEnd);
  }

  lemma BodyFound(tags: Tags, text: string, p: Parts, s: Sections)
    requires AreTags(tags) && s == PlacesOf(tags, p)
    requires Leads(text, s.frontEnd, p.gap, tags.bodyStart) && Leads(text, s.bodyStart, p.body, tags.bodyEnd)
    ensures BodyFoundAt(Finder(text), tags, s)
  {
    TagFound(text, s.frontEnd, p.gap, tags.bodyStart);
    TagFound(text, s.bodyStart, p.body, tags.bodyEnd);
  }

  lemma BothFound(find: (nat, string) -> Option<nat>, tags: Tags, s: Sections)
    requires FrontFoundAt(find, tags, s) && BodyFoundAt(find, tags, s) && s.frontStart == s.at + |tags.frontStart|
    ensures Locate(find, tags) == s
  {}

  lemma PartsLocated(tags: Tags, text: string, p: Parts, s: Sections)
    requires AreTags(tags) && HasSections(tags, text, p) && s == PlacesOf(tags, p)
    ensures Locate(Finder(text), tags) == s
  {
    FrontFound(tags, text, p, s);
    BodyFound(tags, text, p, s);
    BothFound(Finder(text), tags, s);
  }

  /**
   Whatever stands between the parts, an answer is parsed into the text between the first opening tag and the first
   closing tag behind it, and likewise for the body, provided that only white space is in front and behind.
   */
  lemma PartsParsed(tags: Tags, text: string, p: Parts, behind: string)
    requires AreTags(tags) && HasSections(tags, text, p)
    requires behind == text[PlacesOf(tags, p).bodyEnd + |tags.bodyEnd|..]
    ensures ParseTaggedDocument(tags, text)
         == if IsBlank(p.outside) && IsBlank(behind)
            then Document(TrimTagNewlines(p.front), TrimTagNewlines(p.body)) else TextOutside
  {
    var s := PlacesOf(tags, p);
    PartsLocated(tags, text, p, s);
    assert FindsWithin(Finder(text), |text|);
    CutAs(tags, text, s, p.front, p.body, p.outside, behind);
  }

  // ---------------------------------------------------------------- missing tags

  lemma FrontStartMissing(tags: Tags, text: string)
    requires !Contains(text, tags.frontStart)
    ensures ParseTaggedDocument(tags, text) == Missing(tags.frontStart)
  {
    assert text[0..] == text;
    NeverFound(text, 0, tags.frontStart);
  }

  lemma FrontEndMissing(tags: Tags, text: string, x: string, a: nat)
    requires AreTags(tags) && Leads(text, 0, x, tags.frontStart) && a == |x| + |tags.frontStart|
    requires !Contains(text[a..], tags.frontEnd)
    ensures ParseTaggedDocument(tags, text) == Missing(tags.frontEnd)
  {
    TagFound(text, 0, x, tags.frontStart);
    NeverFound(text, a, tags.frontEnd);
  }

  lemma BodyStartMissing(tags: Tags, text: string, x: string, a: nat, front: string, b: nat)
    requires AreTags(tags) && Leads(text, 0, x, tags.frontStart) && a == |x| + |tags.frontStart|
    requires Leads(text, a, front, tags.frontEnd) && b == a + |front| && !Contains(text[b..], tags.bodyStart)
    ensures ParseTaggedDocument(tags, text) == Missing(tags.bodyStart)
  {
    TagFound(text, 0, x, tags.frontStart);
    TagFound(text, a, front, tags.frontEnd);
    NeverFound(text, b, tags.bodyStart);
  }

  lemma BodyEndMissing(tags: Tags, text: string, x: string, a: nat, front: string, b: nat, gap: string, c: nat)
    requires AreTags(tags) && Leads(text, 0, x, tags.frontStart) && a == |x| + |tags.frontStart|
    requires Leads(text, a, front, tags.frontEnd) && b == a + |front|
    requires Leads(text, b, gap, tags.bodyStart) && c == b + |gap| + |tags.bodyStart|
    requires !Contains(text[c..], tags.bodyEnd)
    ensures ParseTaggedDocument(tags, text) == Missing(tags.bodyEnd)
  {
    TagFound(text, 0, x, tags.frontStart);
    TagFound(text, a, front, tags.frontEnd);
    TagFound(text, b, gap, tags.bodyStart);
    NeverFound(text, c, tags.bodyEnd);
  }
}
