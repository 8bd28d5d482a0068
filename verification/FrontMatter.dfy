/**
 * Splitting a document into front matter and body, and the block that is written in front
 * (scripts/docs-i18n/process.go).
 */
module FrontMatter {
  import opened Text

  const FENCE := "---"

  // ---------------------------------------------------------------- lines

  /** `strings.Split(text, "\n")`. */
  function SplitLines(text: string): (lines: seq<string>)
    ensures lines != []
  {
    if text == "" then [""]
    else if text[0] == '\n' then [""] + SplitLines(text[1..])
    else OnFirst(text[0], SplitLines(text[1..]))
  }

  /** The lines with c in front of the first. */
  function OnFirst(c: char, lines: seq<string>): seq<string>
    requires lines != []
  {
    [[c] + lines[0]] + lines[1..]
  }

  lemma OnFirstConcat(c: char, a: seq<string>, b: seq<string>)
    requires a != []
    ensures OnFirst(c, a + b) == OnFirst(c, a) + b
  {}

  /** `strings.Join(lines, "\n")`. */
  function JoinLines(lines: seq<string>): string {
    if lines == [] then "" else if |lines| == 1 then lines[0] else lines[0] + "\n" + JoinLines(lines[1..])
  }

  lemma {:induction false} JoinSplit(text: string)
    ensures JoinLines(SplitLines(text)) == text
  {
    if text != "" {
      JoinSplit(text[1..]);
      var rest := SplitLines(text[1..]);
      assert SplitLines(text)[1..] == if text[0] == '\n' then rest else rest[1..];
    }
  }

  lemma {:induction false} SplitConcat(a: string, b: string)
    ensures SplitLines(a + "\n" + b) == SplitLines(a) + SplitLines(b)
  {
    var text := a + "\n" + b;
    if a == "" {
      assert text[1..] == b;
    } else {
      SplitConcat(a[1..], b);
      assert text[1..] == a[1..] + "\n" + b && text[0] == a[0];
      OnFirstConcat(a[0], SplitLines(a[1..]), SplitLines(b));
    }
  }

  lemma {:induction false} JoinPrefixShorter(lines: seq<string>, n: nat)
    requires n < |lines| && lines[n] != ""
    ensures |JoinLines(lines[..n])| < |JoinLines(lines)|
  {
    if n == 0 {
    } else {
      JoinPrefixShorter(lines[1..], n - 1);
      assert lines[..n][1..] == lines[1..][..n - 1];
    }
  }

  // ---------------------------------------------------------------- splitting

  predicate IsFence(line: string) { TrimSpace(line) == FENCE }

  /** The first fence at or after position i. */
  function FindFence(lines: seq<string>, i: nat): (r: Option<nat>)
    requires i <= |lines|
    ensures r.Some? ==> i <= r.value < |lines| && IsFence(lines[r.value])
    ensures forall k :: i <= k < (if r.Some? then r.value else |lines|) ==> !IsFence(lines[k])
    decreases |lines| - i
  {
    if i == |lines| then None else if IsFence(lines[i]) then Some(i) else FindFence(lines, i + 1)
  }

  function Split(content: string): (string, string) {
    var lines := SplitLines(content);
    if !HasPrefix(content, FENCE) || |lines| < 2 then ("", content)
    else
      match FindFence(lines, 1)
      case None => ("", content)
      case Some(end) => (JoinLines(lines[1..end]), DropNewline(JoinLines(lines[end + 1..])))
  }

  function DropNewline(body: string): string {
    if body != "" && body[0] == '\n' then body[1..] else body
  }

  method SplitFrontMatter(content: string) returns (front: string, body: string)
    ensures (front, body) == Split(content)
  {
    if !HasPrefix(content, FENCE) { return "", content; }
    var lines := SplitLines(content);
    if |lines| < 2 { return "", content; }
    var endIndex := -1;
    var i := 1;
    while i < |lines|
      invariant 1 <= i <= |lines|
      invariant endIndex == -1 && FindFence(lines, 1) == FindFence(lines, i)
    {
      if IsFence(lines[i]) {
        endIndex := i;
        break;
      }
      i := i + 1;
    }
    if endIndex == -1 { return "", content; }
    front := JoinLines(lines[1..endIndex]);
    body := JoinLines(lines[endIndex + 1..]);
    if HasPrefix(body, "\n") {
      body := body[1..];
    }
  }

  // ---------------------------------------------------------------- writing and reading back

  /** The block written for an encoded front matter. */
  function FencedBlock(encoded: string): string { FENCE + "\n" + encoded + FENCE + "\n\n" }

  predicate HasFence(front: string) {
    exists i :: 0 <= i < |SplitLines(front)| && IsFence(SplitLines(front)[i])
  }

  lemma FencedLines(front: string, body: string, fence: string)
    requires SplitLines(fence) == [fence]
    ensures SplitLines(fence + "\n" + (front + "\n" + (fence + "\n" + ("" + "\n" + body))))
         == [fence] + SplitLines(front) + [fence] + [""] + SplitLines(body)
  {
    var blank := "" + "\n" + body;
    var tail := fence + "\n" + blank;
    SplitConcat("", body);
    SplitConcat(fence, blank);
    SplitConcat(front, tail);
    SplitConcat(fence, front + "\n" + tail);
  }

  lemma FindFenceIn(lines: seq<string>, before: seq<string>, front: seq<string>, fence: string, after: seq<string>)
    requires lines == before + front + [fence] + after && IsFence(fence)
    ensures FindFence(lines, |before|).Some? && FindFence(lines, |before|).value <= |before| + |front|
    ensures FindFence(lines, |before|) == Some(|before| + |front|)
           <==> forall i :: 0 <= i < |front| ==> !IsFence(front[i])
    ensures var end := FindFence(lines, |before|).value; lines[|before|..end] == front[..end - |before|]
  {
    assert lines[|before| + |front|] == fence;
    assert forall i :: 0 <= i < |front| ==> lines[|before| + i] == front[i];
  }

  function WrittenLines(front: string, body: string): seq<string> {
    [FENCE] + SplitLines(front) + [FENCE] + [""] + SplitLines(body)
  }

  lemma WrittenSplits(front: string, body: string, content: string)
    requires content == FencedBlock(front + "\n") + body
    ensures HasPrefix(content, FENCE) && SplitLines(content) == WrittenLines(front, body)
  {
    FenceIsLine();
    assert content == FENCE + "\n" + (front + "\n" + (FENCE + "\n" + ("" + "\n" + body)));
    FencedLines(front, body, FENCE);
    assert content[..|FENCE|] == FENCE;
  }

  lemma PartsOf(fence: string, front: seq<string>, gap: string, body: seq<string>, lines: seq<string>)
    requires lines == [fence] + front + [fence] + [gap] + body
    ensures lines[1..|front| + 1] == front && lines[|front| + 2..] == [gap] + body
  {}

  lemma BodyAfterFence(body: string)
    ensures DropNewline(JoinLines([""] + SplitLines(body))) == body
  {
    JoinSplit(body);
    assert ([""] + SplitLines(body))[1..] == SplitLines(body);
  }

  lemma EarlyFence(front: string, n: nat)
    requires n < |SplitLines(front)| && IsFence(SplitLines(front)[n])
    ensures JoinLines(SplitLines(front)[..n]) != front
  {
    assert TrimSpace("") == "";
    JoinSplit(front);
    JoinPrefixShorter(SplitLines(front), n);
  }

  lemma FenceInWritten(front: string, body: string, lines: seq<string>) returns (end: nat)
    requires lines == WrittenLines(front, body)
    ensures FindFence(lines, 1) == Some(end) && 1 <= end <= |SplitLines(front)| + 1
    ensures HasFence(front) ==> end <= |SplitLines(front)| && IsFence(SplitLines(front)[end - 1])
    ensures !HasFence(front) ==> end == |SplitLines(front)| + 1
    ensures lines[1..end] == SplitLines(front)[..end - 1]
  {
    FenceIsLine();
    FindFenceIn(lines, [FENCE], SplitLines(front), FENCE, [""] + SplitLines(body));
    end := FindFence(lines, 1).value;
    assert end <= |SplitLines(front)| ==> lines[end] == SplitLines(front)[end - 1];
  }

  /**
   * A written document reads back as its front matter, without the final line break, and exactly its body, if and
   * only if no line of the front matter trims to the fence.
   */
  lemma WrittenReadsBackIff(front: string, body: string)
    ensures Split(FencedBlock(front + "\n") + body) == (front, body) <==> !HasFence(front)
  {
    var content, lines := FencedBlock(front + "\n") + body, WrittenLines(front, body);
    WrittenSplits(front, body, content);
    var end := FenceInWritten(front, body, lines);
    if HasFence(front) {
      EarlyFence(front, end - 1);
    } else {
      PartsOf(FENCE, SplitLines(front), "", SplitLines(body), lines);
      JoinSplit(front);
      BodyAfterFence(body);
    }
  }

  lemma FenceIsLine()
    ensures SplitLines(FENCE) == [FENCE] && IsFence(FENCE)
  {
    SingleLine(FENCE);
    TrimmedIsFixed(FENCE);
  }

  lemma {:induction false} SingleLine(text: string)
    requires '\n' !in text
    ensures SplitLines(text) == [text]
  {
    if text != "" {
      assert text[0] in text && forall c :: c in text[1..] ==> c in text;
      SingleLine(text[1..]);
      assert text == [text[0]] + text[1..];
    }
  }

  // ---------------------------------------------------------------- every document

  lemma {:induction false} LinesAreWhole(text: string)
    ensures forall line :: line in SplitLines(text) ==> '\n' !in line
  {
    if text != "" { LinesAreWhole(text[1..]); }
  }

  lemma {:induction false} SplitJoin(lines: seq<string>)
    requires lines != [] && forall line :: line in lines ==> '\n' !in line
    ensures SplitLines(JoinLines(lines)) == lines
  {
    SingleLine(lines[0]);
    if |lines| > 1 {
      SplitJoin(lines[1..]);
      SplitConcat(lines[0], JoinLines(lines[1..]));
    }
  }

  lemma {:induction false} JoinConcat(a: seq<string>, b: seq<string>)
    requires a != [] && b != []
    ensures JoinLines(a + b) == JoinLines(a) + "\n" + JoinLines(b)
  {
    assert (a + b)[1..] == a[1..] + b;
    if |a| > 1 { JoinConcat(a[1..], b); }
  }

  /** The lines of a part, none if it is missing. */
  function PartLines(part: Option<string>): seq<string> { if part.Some? then SplitLines(part.value) else [] }

  /** A part with a line break behind it, if there is one. */
  function Before(part: Option<string>): string { if part.Some? then part.value + "\n" else "" }

  /** A part with a line break in front of it, if there is one. */
  function After(part: Option<string>): string { if part.Some? then "\n" + part.value else "" }

  /**
   The document is a first line, the lines of `front` if there are any, a line that trims to three dashes, and
   `rest`, if it goes on; no line of `front` trims to three dashes.
   */
  ghost predicate HasParts(content: string, first: string, front: Option<string>, fence: string, rest: Option<string>) {
    && content == first + "\n" + (Before(front) + (fence + After(rest)))
    && '\n' !in first && '\n' !in fence && TrimSpace(fence) == "---"
    && forall line :: line in PartLines(front) ==> TrimSpace(line) != "---"
  }

  /** The body is the rest up to one line break at its start. */
  predicate IsRest(body: string, rest: string) {
    rest == "\n" + body || (rest == body && !HasPrefix(rest, "\n"))
  }

  lemma LinesBefore(part: Option<string>, tail: string)
    ensures SplitLines(Before(part) + tail) == PartLines(part) + SplitLines(tail)
  {
    if part.Some? { SplitConcat(part.value, tail); } else { assert "" + tail == tail; }
  }

  lemma LinesAfter(line: string, part: Option<string>)
    requires '\n' !in line
    ensures SplitLines(line + After(part)) == [line] + PartLines(part)
  {
    SingleLine(line);
    if part.Some? {
      SplitConcat(line, part.value);
      assert line + "\n" + part.value == line + ("\n" + part.value);
    } else {
      assert line + "" == line;
    }
  }

  lemma LinesOfParts(first: string, front: Option<string>, fence: string, rest: Option<string>, content: string)
    requires HasParts(content, first, front, fence, rest)
    ensures SplitLines(content) == [first] + PartLines(front) + [fence] + PartLines(rest)
  {
    var tail := fence + After(rest);
    SingleLine(first);
    LinesAfter(fence, rest);
    LinesBefore(front, tail);
    SplitConcat(first, Before(front) + tail);
    Regroup([first], PartLines(front), [fence], PartLines(rest));
  }

  lemma Regroup<T>(a: seq<T>, b: seq<T>, c: seq<T>, d: seq<T>)
    ensures a + (b + (c + d)) == a + b + c + d
  {}

  lemma PartsFound(lines: seq<string>, first: string, front: seq<string>, fence: string, rest: seq<string>)
    requires lines == [first] + front + [fence] + rest && IsFence(fence)
    requires forall line :: line in front ==> !IsFence(line)
    ensures |lines| >= 2 && FindFence(lines, 1) == Some(|front| + 1)
    ensures lines[1..|front| + 1] == front && lines[|front| + 2..] == rest
  {
    FindFenceIn(lines, [first], front, fence, rest);
  }

  /** Such a document is split into `front` and the rest, so that nothing of the body is lost. */
  lemma PartsAreSplit(content: string, first: string, front: Option<string>, fence: string, rest: Option<string>)
    requires HasParts(content, first, front, fence, rest) && HasPrefix(content, "---")
    ensures Split(content).0 == if front.Some? then front.value else ""
    ensures if rest.Some? then IsRest(Split(content).1, rest.value) else Split(content).1 == ""
  {
    LinesOfParts(first, front, fence, rest, content);
    PartsFound(SplitLines(content), first, PartLines(front), fence, PartLines(rest));
    if front.Some? { JoinSplit(front.value); }
    if rest.Some? { JoinSplit(rest.value); }
  }

  /** The lines as one part. */
  function PartOf(lines: seq<string>): Option<string> { if lines == [] then None else Some(JoinLines(lines)) }

  lemma JoinBefore(lines: seq<string>, tail: seq<string>)
    requires tail != []
    ensures JoinLines(lines + tail) == Before(PartOf(lines)) + JoinLines(tail)
  {
    if lines != [] { JoinConcat(lines, tail); } else { assert lines + tail == tail; }
  }

  lemma JoinAfter(line: string, lines: seq<string>)
    ensures JoinLines([line] + lines) == line + After(PartOf(lines))
  {
    if lines != [] {
      JoinConcat([line], lines);
      assert line + "\n" + JoinLines(lines) == line + ("\n" + JoinLines(lines));
    } else {
      assert [line] + lines == [line] && line + "" == line;
    }
  }

  lemma JoinFirst(line: string, lines: seq<string>)
    requires lines != []
    ensures JoinLines([line] + lines) == line + "\n" + JoinLines(lines)
  {
    JoinConcat([line], lines);
  }

  lemma JoinedParts(first: string, middle: seq<string>, fence: string, later: seq<string>)
    ensures JoinLines([first] + (middle + ([fence] + later)))
         == first + "\n" + (Before(PartOf(middle)) + (fence + After(PartOf(later))))
  {
    JoinAfter(fence, later);
    JoinBefore(middle, [fence] + later);
    JoinFirst(first, middle + ([fence] + later));
  }

  lemma LinesAround(lines: seq<string>, end: nat)
    requires 1 <= end < |lines|
    ensures lines == [lines[0]] + (lines[1..end] + ([lines[end]] + lines[end + 1..]))
  {}

  lemma PartsThere(content: string, lines: seq<string>, end: nat)
    requires lines == SplitLines(content) && |lines| >= 2 && FindFence(lines, 1) == Some(end)
    ensures HasParts(content, lines[0], PartOf(lines[1..end]), lines[end], PartOf(lines[end + 1..]))
  {
    LinesAreWhole(content);
    JoinSplit(content);
    LinesAround(lines, end);
    JoinedParts(lines[0], lines[1..end], lines[end], lines[end + 1..]);
    var middle := lines[1..end];
    if middle != [] {
      assert forall line :: line in middle ==> line in lines;
      SplitJoin(middle);
    }
  }

  /** Every other document is all body. */
  lemma WholeOtherwise(content: string)
    requires HasPrefix(content, "---") ==>
               forall first, front, fence, rest :: !HasParts(content, first, front, fence, rest)
    ensures Split(content) == ("", content)
  {
    var lines := SplitLines(content);
    if HasPrefix(content, "---") && |lines| >= 2 && FindFence(lines, 1).Some? {
      PartsThere(content, lines, FindFence(lines, 1).value);
    }
  }
}
