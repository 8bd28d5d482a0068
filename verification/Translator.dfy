/** Translating one text: white space set aside, the core masked, sent out, checked and unmasked, with retries. */
module Translator {
  import opened Text
  import opened Masking
  import opened MaskLayout
  import opened Unmasking
  import opened Seams

  // ---------------------------------------------------------------- masking as a whole

  ghost function MaskedText(source: string): string { MaskText(source, InitialWork(source)).0 }

  ghost function FinalWork(source: string): Work { MaskText(source, InitialWork(source)).1 }

  /** The source spells the core of no placeholder that masking it allocates. */
  ghost predicate CoresAbsent(source: string) {
    forall n: nat :: Placeholder(n) in FinalWork(source).placeholders ==> !Contains(source, Core(n))
  }

  ghost predicate AllPresent(text: string, placeholders: seq<string>) {
    forall p :: p in placeholders ==> Contains(text, p)
  }

  ghost predicate MappingHides(w: Work) {
    exists i, j :: 0 <= i < |w.placeholders| && 0 <= j < |w.placeholders| && Hides(w, i, j)
  }

  /** The text masked by placeholder j contains placeholder i. */
  ghost predicate Hides(w: Work, i: nat, j: nat)
    requires i < |w.placeholders| && j < |w.placeholders|
  {
    w.placeholders[j] in w.mapping && Contains(w.mapping[w.placeholders[j]], w.placeholders[i])
  }

  /** Where the masked parts of the source lie. */
  ghost predicate IsLayout(source: string, l: Layout, work: seq<Tok>) {
    && Lays(l, work, source) && Flatten(work) == MaskedText(source)
    && Represents(l, FinalWork(source), PlaceholderHits(source, 0))
    && SharpValues(l) && Guarded(l.full, work)
  }

  lemma LayoutOf(source: string) returns (l: Layout, work: seq<Tok>)
    ensures IsLayout(source, l, work)
    ensures CoresAbsent(source) ==> NoCores(source, l)
    ensures "" !in FinalWork(source).placeholders
  {
    l, work := MaskTextLays(source);
    var w := FinalWork(source);
    PlaceholdersNotEmpty(l, w, PlaceholderHits(source, 0));
    if CoresAbsent(source) {
      forall n: nat | n in l.names ensures !Contains(source, Core(n)) {
        var i :| 0 <= i < |l.names| && l.names[i] == n;
        StoredAt(l, w, PlaceholderHits(source, 0), i);
      }
    }
  }

  lemma ValueHides(l: Layout, work: seq<Tok>, source: string, j: nat, i: nat)
    requires Lays(l, work, source) && NoCores(source, l) && j < |l.names| && i < |l.names|
    ensures Contains(Flatten(l.values[j]), Placeholder(l.names[i])) <==> Ph(l.names[i]) in l.values[j]
  {
    var v := l.values[j];
    assert SoundAt(l, j) && l.names[j] in l.names && l.names[i] in l.names;
    forall m: nat | m in l.names ensures !Contains(Expand(v, l.full), Core(m)) {
      if Contains(Expand(v, l.full), Core(m)) { ContainsTrans(source, Expand(v, l.full), Core(m)); }
    }
    NoCoresUnspelled(v, l, l.names[i]);
    UnspelledIsNotStray(v, l.names[i]);
    OccursIffToken(v, l.names[i]);
  }

  lemma SwallowedHides(l: Layout, work: seq<Tok>, source: string, w: Work, hits: set<string>)
    requires Lays(l, work, source) && Represents(l, w, hits) && NoCores(source, l) && Swallowed(l)
    ensures MappingHides(w)
  {
    var j, n: nat :| 0 <= j < |l.values| && Ph(n) in l.values[j];
    var i := IndexOfName(l, j, n);
    ValueHides(l, work, source, j, i);
    StoredAt(l, w, hits, i);
    StoredAt(l, w, hits, j);
    assert Hides(w, i, j);
  }

  lemma HiddenSwallowed(l: Layout, work: seq<Tok>, source: string, w: Work, hits: set<string>)
    requires Lays(l, work, source) && Represents(l, w, hits) && NoCores(source, l) && MappingHides(w)
    ensures Swallowed(l)
  {
    var i, j :| 0 <= i < |w.placeholders| && 0 <= j < |w.placeholders| && Hides(w, i, j);
    StoredAt(l, w, hits, i);
    StoredAt(l, w, hits, j);
    ValueHides(l, work, source, j, i);
  }

  /** Validation accepts the masked text, echoed unchanged. */
  ghost predicate Accepted(source: string) {
    "" !in FinalWork(source).placeholders && AllPresent(MaskedText(source), FinalWork(source).placeholders)
  }

  /** Unmasking it gives the source back. */
  ghost predicate Restored(source: string) {
    && "" !in FinalWork(source).placeholders
    && Unmask(MaskedText(source), FinalWork(source).placeholders, FinalWork(source).mapping) == source
  }

  /**
   No masked part contains the placeholder of another, and in the text with the masked parts up to number n
   put back, the text of placeholder n starts nowhere but at its own place.
   */
  ghost predicate WellMasked(source: string) {
    exists l, work :: IsLayout(source, l, work) && IsWellMasked(l, work)
  }

  ghost predicate IsWellMasked(l: Layout, work: seq<Tok>) {
    |l.names| == |l.values| && Seamless(work, l) && !Swallowed(l)
  }

  /** Every placeholder whose core the source spells stands for a text that starts with a mark: no link target. */
  ghost predicate SpelledCoresAreMarked(source: string) {
    forall n: nat :: Placeholder(n) in FinalWork(source).placeholders && Placeholder(n) in FinalWork(source).mapping
      ==> MarkedIfSpelled(source, n, FinalWork(source).mapping[Placeholder(n)])
  }

  lemma LayoutRestoredIff(source: string, l: Layout, work: seq<Tok>)
    requires IsLayout(source, l, work) && SpelledCoresAreMarked(source)
    ensures Restored(source) <==> IsWellMasked(l, work)
  {
    var w, hits := FinalWork(source), PlaceholderHits(source, 0);
    forall k | 0 <= k < |l.names| ensures MarkedIfSpelled(source, l.names[k], Flatten(l.values[k])) {
      StoredAt(l, w, hits, k);
    }
    RestoredIff(work, l, source, w, hits);
  }

  /** A well-masked source is accepted and restored, whatever it spells. */
  lemma WellMaskedIsRestored(source: string)
    requires WellMasked(source)
    ensures Accepted(source) && Restored(source)
  {
    var l, work :| IsLayout(source, l, work) && IsWellMasked(l, work);
    var w, hits := FinalWork(source), PlaceholderHits(source, 0);
    UnmaskRestores(work, l, w, hits);
    forall p | p in w.placeholders ensures Contains(MaskedText(source), p) {
      var i: nat :| i < |w.placeholders| && w.placeholders[i] == p;
      StoredAt(l, w, hits, i);
      TokenIsThere(l, work, source, l.names[i]);
    }
  }

  /**
   Masking is fail-safe: a text echoed unchanged is accepted and restored exactly if it is well masked.
   For the "only if", a core that the source spells must not be that of a masked link target.
   */
  lemma MaskingIsFailSafe(source: string)
    requires SpelledCoresAreMarked(source)
    ensures Restored(source) <==> WellMasked(source)
    ensures Accepted(source) && Restored(source) <==> WellMasked(source)
  {
    var l, work := LayoutOf(source);
    LayoutRestoredIff(source, l, work);
    if WellMasked(source) { WellMaskedIsRestored(source); }
  }

  /**
   For a source without cores, validation accepts exactly the texts that unmasking gives back, and both fail
   exactly when one masked part hides another's placeholder.
   */
  lemma CorelessMasking(source: string)
    requires CoresAbsent(source)
    ensures SpelledCoresAreMarked(source)
    ensures (Accepted(source) <==> Restored(source)) && (Accepted(source) <==> !MappingHides(FinalWork(source)))
  {
    var l, work := LayoutOf(source);
    var w, hits := FinalWork(source), PlaceholderHits(source, 0);
    NoCoresSeamless(work, l);
    LayoutRestoredIff(source, l, work);
    ValidationIff(l, work, source, w, hits);
    if Swallowed(l) { SwallowedHides(l, work, source, w, hits); }
    if MappingHides(w) { HiddenSwallowed(l, work, source, w, hits); }
  }

  /** No placeholder is allocated twice, and none that the source already contains. */
  lemma PlaceholdersAreFresh(source: string)
    ensures var ps := FinalWork(source).placeholders;
            && (forall i, k :: 0 <= i < k < |ps| ==> ps[i] != ps[k])
            && (forall p :: p in ps ==> p !in PlaceholderHits(source, 0))
  {
    var l, work := LayoutOf(source);
    var ps := FinalWork(source).placeholders;
    var w, hits := FinalWork(source), PlaceholderHits(source, 0);
    forall i: nat, k: nat | i < k < |ps| ensures ps[i] != ps[k] {
      StoredAt(l, w, hits, i);
      StoredAt(l, w, hits, k);
      if ps[i] == ps[k] { PlaceholderInjective(l.names[i], l.names[k]); }
    }
    forall p | p in ps ensures p !in hits {
      var i: nat :| i < |ps| && ps[i] == p;
      StoredAt(l, w, hits, i);
    }
  }

  /** A text without the placeholder stem meets the condition. */
  lemma PlainTextIsSafe(source: string)
    requires !Contains(source, "OC_I18N_")
    ensures CoresAbsent(source)
  {
    forall n: nat | Contains(source, Core(n)) ensures false {
      assert OccursAt(Core(n), 0, "OC_I18N_");
      ContainsTrans(source, Core(n), "OC_I18N_");
    }
  }

  /** Wherever the source has the stem and a digit, it has a recognised placeholder of up to six digits. */
  ghost predicate CoresRecorded(source: string) {
    forall i: nat :: OccursAt(source, i, "OC_I18N_") ==> RecordedAt(source, i)
  }

  ghost predicate RecordedAt(source: string, i: nat)
    requires i + 8 <= |source|
  {
    var k := DigitRun(source, i + 8);
    k > i + 8 ==>
      && i >= 2 && k <= i + 14 && OccursAt(source, i - 2, "__") && OccursAt(source, k, "__")
      && source[i - 2..k + 2] in PlaceholderHits(source, 0)
  }

  lemma CoreDigits(source: string, i: nat, n: nat)
    requires n >= 900000 && OccursAt(source, i, Core(n))
    ensures OccursAt(source, i, "OC_I18N_") && |Decimal(n)| >= 6
    ensures i + 8 + |Decimal(n)| <= DigitRun(source, i + 8)
    ensures source[i + 8..i + 8 + |Decimal(n)|] == Decimal(n)
  {
    var d, k := Decimal(n), DigitRun(source, i + 8);
    assert Pow10(5) == 100000;
    DecimalLength(n, 6);
    assert source[i..i + |Core(n)|][..8] == source[i..i + 8];
    assert source[i..i + |Core(n)|][8..] == source[i + 8..i + 8 + |d|];
    forall m | i + 8 <= m < i + 8 + |d| ensures IsDigit(source[m]) {
      assert source[m] == source[i + 8..i + 8 + |d|][m - i - 8];
    }
  }

  lemma RecordedCore(source: string, i: nat, n: nat)
    requires CoresRecorded(source) && n >= 900000 && OccursAt(source, i, Core(n))
    ensures Placeholder(n) in PlaceholderHits(source, 0)
  {
    CoreDigits(source, i, n);
    assert RecordedAt(source, i);
    var k := DigitRun(source, i + 8);
    assert k == i + 8 + |Decimal(n)|;
    assert OccursAt(source, i - 2, "__") && OccursAt(source, k, "__");
    AssembledHit(source, i, k, n);
  }

  lemma TwoSlices(text: string, a: nat, b: nat, c: nat)
    requires a <= b <= c <= |text|
    ensures text[a..c] == text[a..b] + text[b..c]
  {}

  lemma AssembledHit(source: string, i: nat, k: nat, n: nat)
    requires 2 <= i && i + 8 <= k && k + 2 <= |source|
    requires OccursAt(source, i - 2, "__") && OccursAt(source, i, "OC_I18N_") && OccursAt(source, k, "__")
    requires source[i + 8..k] == Decimal(n)
    ensures source[i - 2..k + 2] == Placeholder(n)
  {
    TwoSlices(source, i - 2, i, i + 8);
    TwoSlices(source, i - 2, i + 8, k);
    TwoSlices(source, i - 2, k, k + 2);
    assert "__" + "OC_I18N_" == PREFIX;
  }

  /** Source placeholders that the allocator recorded cannot be confused with fresh ones. */
  lemma RecordedPlaceholdersAreSafe(source: string)
    requires CoresRecorded(source)
    ensures CoresAbsent(source)
  {
    var l, work := LayoutOf(source);
    var w := FinalWork(source);
    forall n: nat | Placeholder(n) in w.placeholders ensures !Contains(source, Core(n)) {
      var j :| 0 <= j < |w.placeholders| && w.placeholders[j] == Placeholder(n);
      StoredAt(l, w, PlaceholderHits(source, 0), j);
      PlaceholderInjective(l.names[j], n);
      if i: nat :| OccursAt(source, i, Core(n)) { RecordedCore(source, i, n); }
    }
  }

  // ---------------------------------------------------------------- one attempt

  datatype Error =
    | PromptFailed(retryable: bool)
    | EmptyTranslation
    | PlaceholderMissing(placeholder: string)
    | SleepCancelled

  datatype Result = Ok(text: string) | Err(error: Error)

  /** What the language model client answers to one prompt. */
  datatype Reply = Answer(text: string) | Refused(retryable: bool)

  predicate IsRetryable(e: Error) {
    match e
    case PromptFailed(retryable) => retryable
    case EmptyTranslation => true
    case PlaceholderMissing(_) => true
    case SleepCancelled => false
  }

  /** The possible results of masking a core, prompting, checking and unmasking. */
  ghost predicate IsAttempt(core: string, reply: Reply, r: Result) {
    match reply
    case Refused(retryable) => r == Err(PromptFailed(retryable))
    case Answer(text) =>
      var t, w := TrimSpace(text), FinalWork(core);
      if t == "" then r == Err(EmptyTranslation)
      else if AllPresent(t, w.placeholders) then "" !in w.placeholders && r == Ok(Unmask(t, w.placeholders, w.mapping))
      else r.Err? && r.error.PlaceholderMissing? && FirstMissing(t, w.placeholders, r.error.placeholder)
  }

  method TranslateMasked(core: string, reply: Reply) returns (r: Result)
    ensures IsAttempt(core, reply, r)
  {
    var state := new PlaceholderState(core);
    var masks := new Masks();
    var masked := masks.MaskMarkdown(core, state);
    LayoutOfExists(core);
    match reply
    case Refused(retryable) => r := Err(PromptFailed(retryable));
    case Answer(text) =>
      var translated := TrimSpace(text);
      if translated == "" { return Err(EmptyTranslation); }
      var missing := ValidatePlaceholders(translated, masks.placeholders);
      if missing.Some? { return Err(PlaceholderMissing(missing.value)); }
      var out := UnmaskMarkdown(translated, masks.placeholders, masks.mapping);
      r := Ok(out);
  }

  lemma LayoutOfExists(core: string)
    ensures "" !in FinalWork(core).placeholders
  {
    var l, work := LayoutOf(core);
  }

  lemma BlankIsPlain(ts: seq<Tok>)
    requires IsBlank(Flatten(ts))
    ensures forall t :: t in ts ==> t.Ch?
  {
    forall i | 0 <= i < |ts| ensures ts[i].Ch? {
      if ts[i].Ph? { TokenNotBlank(ts, i); }
    }
  }

  lemma TokenNotBlank(ts: seq<Tok>, i: nat)
    requires i < |ts| && ts[i].Ph?
    ensures !IsBlank(Flatten(ts))
  {
    OccursIfToken(ts, i);
    var k: nat :| OccursAt(Flatten(ts), k, Placeholder(ts[i].n));
    ShowsUnderscores(ts[i].n);
    OccursChar(Flatten(ts), k, Placeholder(ts[i].n), 0);
  }

  lemma CutTokens(ts: seq<Tok>, q: nat) returns (a: seq<Tok>, c: seq<Tok>)
    requires CutHere(Flatten(ts), q)
    ensures ts == a + c && Flatten(a) == Flatten(ts)[..q] && Flatten(c) == Flatten(ts)[q..]
  {
    var m := CutAt(ts, q);
    a, c := ts[..m], ts[m..];
  }

  lemma CutBlanks(ts: seq<Tok>, i: nat, k: nat) returns (a: seq<Tok>, b: seq<Tok>, c: seq<Tok>)
    requires i <= k <= |Flatten(ts)| && IsBlank(Flatten(ts)[..i]) && IsBlank(Flatten(ts)[k..])
    ensures ts == a + b + c
    ensures Flatten(a) == Flatten(ts)[..i] && Flatten(b) == Flatten(ts)[i..k] && Flatten(c) == Flatten(ts)[k..]
  {
    var text := Flatten(ts);
    assert i > 0 ==> IsSpace(text[..i][i - 1]);
    var bc;
    a, bc := CutTokens(ts, i);
    var rest := Flatten(bc);
    assert rest == text[i..];
    assert k < |text| ==> IsSpace(text[k..][0]) && rest[k - i] == text[k];
    b, c := CutTokens(bc, k - i);
    RestParts(text, rest, i, k);
  }

  /** The trimmed working text is a middle part of the layout, and only plain characters are cut off. */
  lemma TrimmedLayout(work: seq<Tok>) returns (a: seq<Tok>, b: seq<Tok>, c: seq<Tok>)
    ensures work == a + b + c && Flatten(b) == TrimSpace(Flatten(work))
    ensures forall t :: t in a || t in c ==> t.Ch?
    ensures !Trimmed(Flatten(work)) ==> a != [] || c != []
  {
    var i, k := TrimSpaceMeaning(Flatten(work));
    TrimmedIsFixed(Flatten(work));
    a, b, c := CutBlanks(work, i, k);
    BlankIsPlain(a);
    BlankIsPlain(c);
    if a == [] && c == [] { assert work == b; }
  }

  lemma {:induction false} PlainExpands(ts: seq<Tok>, full: map<nat, string>)
    requires forall t :: t in ts ==> t.Ch?
    ensures |Expand(ts, full)| == |ts|
  {
    if ts != [] { PlainExpands(ts[1..], full); }
  }

  /** A text without mutually hidden parts, echoed, comes back trimmed. */
  lemma EchoUnswallowed(core: string, l: Layout, work: seq<Tok>, w: Work, hits: set<string>)
    requires Lays(l, work, core) && Represents(l, w, hits) && NoCores(core, l) && !Swallowed(l) && "" !in w.placeholders
    ensures Unmask(TrimSpace(Flatten(work)), w.placeholders, w.mapping) == core <==> Trimmed(Flatten(work))
  {
    var a, b, c := TrimmedLayout(work);
    ExpandConcat(a + b, c, l.full);
    ExpandConcat(a, b, l.full);
    PlainExpands(a, l.full);
    PlainExpands(c, l.full);
    ContainsMiddle(Expand(a, l.full), Expand(b, l.full), Expand(c, l.full));
    forall n: nat | n in l.names ensures !Contains(Expand(b, l.full), Core(n)) {
      if Contains(Expand(b, l.full), Core(n)) { ContainsTrans(core, Expand(b, l.full), Core(n)); }
    }
    assert forall t :: t in b ==> t in work;
    NoCoresSeamless(b, l);
    UnmaskRestores(b, l, w, hits);
    TrimmedIsFixed(Flatten(work));
    if Trimmed(Flatten(work)) {
      NoCoresSeamless(work, l);
      UnmaskRestores(work, l, w, hits);
    }
  }

  /** Trimming the working text neither adds nor removes a placeholder. */
  lemma TrimKeepsPlaceholders(l: Layout, work: seq<Tok>, core: string, w: Work, hits: set<string>)
    requires Lays(l, work, core) && Represents(l, w, hits) && NoCores(core, l)
    ensures AllPresent(TrimSpace(Flatten(work)), w.placeholders) ==> AllPresent(Flatten(work), w.placeholders)
  {
    var a, b, c := TrimmedLayout(work);
    FlattenConcat(a + b, c);
    FlattenConcat(a, b);
    ContainsMiddle(Flatten(a), Flatten(b), Flatten(c));
    if AllPresent(Flatten(b), w.placeholders) {
      forall p | p in w.placeholders ensures Contains(Flatten(work), p) {
        ContainsTrans(Flatten(work), Flatten(b), p);
      }
    }
  }

  /** An echoed prompt gives the core back exactly when the prompt is trimmed and no masked part hides another. */
  lemma EchoIff(core: string, r: Result)
    requires core != "" && CoresAbsent(core) && IsAttempt(core, Answer(MaskedText(core)), r)
    ensures r == Ok(core) <==> Trimmed(MaskedText(core)) && !MappingHides(FinalWork(core))
  {
    var l, work := LayoutOf(core);
    var w, hits := FinalWork(core), PlaceholderHits(core, 0);
    CorelessMasking(core);
    TrimmedIsFixed(MaskedText(core));
    if MappingHides(w) {
      TrimKeepsPlaceholders(l, work, core, w, hits);
    } else {
      NothingSwallowed(core, l, work);
      EchoUnswallowed(core, l, work, w, hits);
    }
  }

  lemma NothingSwallowed(source: string, l: Layout, work: seq<Tok>)
    requires IsLayout(source, l, work) && NoCores(source, l) && !MappingHides(FinalWork(source))
    ensures !Swallowed(l)
  {
    if Swallowed(l) { SwallowedHides(l, work, source, FinalWork(source), PlaceholderHits(source, 0)); }
  }

  /** A well-masked core comes back from an echoed prompt that is trimmed, whatever it spells. */
  lemma EchoSucceeds(core: string, r: Result)
    requires Trimmed(MaskedText(core)) && MaskedText(core) != "" && WellMasked(core)
    requires IsAttempt(core, Answer(MaskedText(core)), r)
    ensures r == Ok(core)
  {
    WellMaskedIsRestored(core);
    TrimmedIsFixed(MaskedText(core));
  }

  /**
   Whatever an accepted reply without cores says around the placeholders, the result is the reply with each of them
   replaced by what it stands for, and contains every masked part.
   */
  lemma AcceptedReplyKeepsParts(core: string, l: Layout, work: seq<Tok>, text: string, reply: seq<Tok>, r: Result)
    requires IsLayout(core, l, work) && !Swallowed(l) && IsAttempt(core, Answer(text), r) && r.Ok?
    requires TrimSpace(text) == Flatten(reply) && NoCores(Expand(reply, l.full), l)
    requires forall n: nat :: Ph(n) in reply ==> n in l.names
    ensures r.text == Expand(reply, l.full)
    ensures forall n: nat :: n in l.names ==> n in l.full && Contains(r.text, l.full[n])
  {
    var w, hits := FinalWork(core), PlaceholderHits(core, 0);
    NoCoresSeamless(reply, l);
    UnmaskRestores(reply, l, w, hits);
    forall n: nat | n in l.names ensures n in l.full && Contains(Expand(reply, l.full), l.full[n]) {
      var i :| 0 <= i < |l.names| && l.names[i] == n;
      StoredAt(l, w, hits, i);
      NoCoresUnspelled(reply, l, n);
      UnspelledIsNotStray(reply, n);
      OccursIffToken(reply, n);
      TokenIsMeant(reply, l.full, n);
    }
  }

  lemma TokenIsMeant(ts: seq<Tok>, full: map<nat, string>, n: nat)
    requires Ph(n) in ts && n in full
    ensures Contains(Expand(ts, full), full[n])
  {
    var k :| 0 <= k < |ts| && ts[k] == Ph(n);
    var a, b := ts[..k], ts[k + 1..];
    assert ts == a + [ts[k]] + b;
    ExpandConcat(a + [ts[k]], b, full);
    ExpandConcat(a, [ts[k]], full);
    RenderOne(Meaning(full), ts[k]);
    ContainsMiddle(Expand(a, full), full[n], Expand(b, full));
  }

  // ---------------------------------------------------------------- white space and retries

  predicate IsOuterSpace(c: char) { c == ' ' || c == '\t' || c == '\n' || c == '\r' }

  /** Only blanks, tabs and line breaks are kept around the core. */
  lemma OuterSpacesAre(c: char)
    ensures IsOuterSpace(c) <==> c in " \t\n\r"
  {}

  /** The outer white space of a text, and what it surrounds. */
  predicate IsSplit(text: string, prefix: string, core: string, suffix: string) {
    && text == prefix + core + suffix
    && (forall i :: 0 <= i < |prefix| ==> IsOuterSpace(prefix[i]))
    && (forall i :: 0 <= i < |suffix| ==> IsOuterSpace(suffix[i]))
    && (core != "" ==> !IsOuterSpace(core[0]) && !IsOuterSpace(core[|core| - 1]))
  }

  method SplitWhitespace(text: string) returns (prefix: string, core: string, suffix: string)
    ensures IsSplit(text, prefix, core, suffix)
  {
    if text == "" { return "", "", ""; }
    var start := 0;
    while start < |text| && IsOuterSpace(text[start])
      invariant start <= |text| && forall i :: 0 <= i < start ==> IsOuterSpace(text[i])
    {
      start := start + 1;
    }
    var end := |text|;
    while end > start && IsOuterSpace(text[end - 1])
      invariant start <= end <= |text| && forall i :: end <= i < |text| ==> IsOuterSpace(text[i])
    {
      end := end - 1;
    }
    return text[..start], text[start..end], text[end..];
  }

  lemma SplitPlaces(text: string, prefix: string, core: string, suffix: string, a: nat, b: nat)
    requires IsSplit(text, prefix, core, suffix) && a == |prefix| && b == a + |core|
    ensures b <= |text| && text[..a] == prefix && text[a..b] == core && text[b..] == suffix
    ensures (forall i :: 0 <= i < a ==> IsOuterSpace(text[i]))
           && (forall i :: b <= i < |text| ==> IsOuterSpace(text[i]))
    ensures core != "" ==> !IsOuterSpace(text[a]) && !IsOuterSpace(text[b - 1])
  {}

  /** There is one core only. */
  lemma SplitIsUnique(text: string, prefix: string, core: string, suffix: string, p: string, c: string, q: string)
    requires IsSplit(text, prefix, core, suffix) && IsSplit(text, p, c, q)
    ensures core == c && (core != "" ==> prefix == p && suffix == q)
  {
    SplitPlaces(text, prefix, core, suffix, |prefix|, |prefix| + |core|);
    SplitPlaces(text, p, c, q, |p|, |p| + |c|);
  }

  /** One to three attempts: all but the last failed in a retryable way and slept it off, and the last ends the run. */
  ghost predicate IsRetryRun(core: string, replies: seq<Reply>, slept: seq<bool>, tried: seq<Result>)
    requires |replies| == 3 && |slept| == 2
  {
    && 1 <= |tried| <= 3
    && (forall k :: 0 <= k < |tried| ==> IsAttempt(core, replies[k], tried[k]))
    && (forall k :: 0 <= k < |tried| - 1 ==> tried[k].Err? && IsRetryable(tried[k].error) && slept[k])
    && (Decisive(tried[|tried| - 1]) || |tried| == 3 || !slept[|tried| - 1])
  }

  predicate Decisive(r: Result) { r.Ok? || !IsRetryable(r.error) }

  /** The last attempt, unless the sleep after it was cancelled. */
  function RunResult(tried: seq<Result>): Result
    requires 1 <= |tried| <= 3
  {
    var last := tried[|tried| - 1];
    if Decisive(last) || |tried| == 3 then last else Err(SleepCancelled)
  }

  /** The first n attempts all failed in a retryable way, and were slept off. */
  ghost predicate FailedSoFar(core: string, replies: seq<Reply>, slept: seq<bool>, tried: seq<Result>, n: nat)
    requires |replies| == 3 && |slept| == 2
  {
    && |tried| == n <= 3
    && forall k :: 0 <= k < n ==> FailedAt(core, replies[k], tried[k]) && (k < 2 ==> slept[k])
  }

  ghost predicate FailedAt(core: string, reply: Reply, r: Result) {
    IsAttempt(core, reply, r) && r.Err? && IsRetryable(r.error)
  }

  lemma AllAttempts(core: string, replies: seq<Reply>, slept: seq<bool>, tried: seq<Result>, n: nat, r: Result,
                    all: seq<Result>)
    requires |replies| == 3 && |slept| == 2 && n < 3 && all == tried + [r]
    requires FailedSoFar(core, replies, slept, tried, n) && IsAttempt(core, replies[n], r)
    ensures forall k :: 0 <= k < n + 1 ==> IsAttempt(core, replies[k], all[k])
  {
    forall k | 0 <= k < n + 1 ensures IsAttempt(core, replies[k], all[k]) {
      if k < n { assert FailedAt(core, replies[k], tried[k]); }
    }
  }

  lemma AllButLastFailed(core: string, replies: seq<Reply>, slept: seq<bool>, tried: seq<Result>, n: nat, r: Result,
                         all: seq<Result>)
    requires |replies| == 3 && |slept| == 2 && n < 3 && all == tried + [r]
    requires FailedSoFar(core, replies, slept, tried, n)
    ensures forall k :: 0 <= k < n ==> all[k].Err? && IsRetryable(all[k].error) && slept[k]
  {
    forall k | 0 <= k < n ensures all[k].Err? && IsRetryable(all[k].error) && slept[k] {
      assert FailedAt(core, replies[k], tried[k]);
    }
  }

  lemma EndsRun(core: string, replies: seq<Reply>, slept: seq<bool>, tried: seq<Result>, n: nat, r: Result,
                all: seq<Result>)
    requires |replies| == 3 && |slept| == 2 && n < 3 && all == tried + [r]
    requires FailedSoFar(core, replies, slept, tried, n) && IsAttempt(core, replies[n], r)
    requires Decisive(r) || n == 2 || !slept[n]
    ensures IsRetryRun(core, replies, slept, all)
    ensures RunResult(all) == if Decisive(r) || n == 2 then r else Err(SleepCancelled)
  {
    AllAttempts(core, replies, slept, tried, n, r, all);
    AllButLastFailed(core, replies, slept, tried, n, r, all);
  }

  lemma FailsOn(core: string, replies: seq<Reply>, slept: seq<bool>, tried: seq<Result>, n: nat, r: Result,
                all: seq<Result>)
    requires |replies| == 3 && |slept| == 2 && n < 2 && all == tried + [r]
    requires FailedSoFar(core, replies, slept, tried, n) && IsAttempt(core, replies[n], r)
    requires r.Err? && IsRetryable(r.error) && slept[n]
    ensures FailedSoFar(core, replies, slept, all, n + 1)
  {
    forall k | 0 <= k < n + 1 ensures FailedAt(core, replies[k], all[k]) {
      if k < n { assert FailedAt(core, replies[k], tried[k]); }
    }
  }

  /** Some such run has the result r. */
  ghost predicate RetriesTo(core: string, replies: seq<Reply>, slept: seq<bool>, r: Result)
    requires |replies| == 3 && |slept| == 2
  {
    exists tried :: IsRetryRun(core, replies, slept, tried) && r == RunResult(tried)
  }

  method TranslateWithRetry(core: string, replies: seq<Reply>, slept: seq<bool>) returns (r: Result)
    requires |replies| == 3 && |slept| == 2
    ensures RetriesTo(core, replies, slept, r)
  {
    ghost var tried := [];
    r := Err(EmptyTranslation);
    for attempt := 0 to 3
      invariant attempt < 3 ==> FailedSoFar(core, replies, slept, tried, attempt)
      invariant attempt == 3 ==> IsRetryRun(core, replies, slept, tried) && r == RunResult(tried)
    {
      r := TranslateMasked(core, replies[attempt]);
      ghost var before := tried;
      tried := tried + [r];
      if r.Ok? || !IsRetryable(r.error) {
        EndsRun(core, replies, slept, before, attempt, r, tried);
        return;
      }
      if attempt + 1 < 3 {
        if !slept[attempt] {
          EndsRun(core, replies, slept, before, attempt, r, tried);
          return Err(SleepCancelled);
        }
        FailsOn(core, replies, slept, before, attempt, r, tried);
      } else {
        EndsRun(core, replies, slept, before, attempt, r, tried);
      }
    }
  }

  /** The answer is not blank and contains all placeholders. */
  ghost predicate Usable(core: string, reply: Reply) {
    reply.Answer? && !IsBlank(reply.text) && AllPresent(TrimSpace(reply.text), FinalWork(core).placeholders)
  }

  /** Another attempt is made after a refusal that may pass, a blank answer, and one without some placeholder. */
  ghost predicate Repeats(core: string, reply: Reply) {
    if reply.Refused? then reply.retryable else !Usable(core, reply)
  }

  lemma AttemptMeans(core: string, reply: Reply, r: Result)
    requires IsAttempt(core, reply, r)
    ensures r.Ok? <==> Usable(core, reply)
    ensures r.Err? && IsRetryable(r.error) <==> Repeats(core, reply)
  {
    if reply.Answer? { var i, k := TrimSpaceMeaning(reply.text); }
  }

  /** The reply at k decides: it is usable, and those before it were repeated. */
  ghost predicate Decides(core: string, replies: seq<Reply>, k: nat) {
    k < |replies| && Usable(core, replies[k]) && forall j :: 0 <= j < k ==> Repeats(core, replies[j])
  }

  /** Attempt k is what its reply makes of it. */
  ghost predicate Fits(core: string, reply: Reply, r: Result) {
    (r.Ok? <==> Usable(core, reply)) && (r.Err? && IsRetryable(r.error) <==> Repeats(core, reply))
  }

  lemma AttemptsFit(core: string, replies: seq<Reply>, tried: seq<Result>)
    requires |replies| == 3 && IsRetryRun(core, replies, [true, true], tried)
    ensures forall k :: 0 <= k < |tried| ==> Fits(core, replies[k], tried[k])
  {
    forall k | 0 <= k < |tried| ensures Fits(core, replies[k], tried[k]) { AttemptMeans(core, replies[k], tried[k]); }
  }

  lemma RunDecides(core: string, replies: seq<Reply>, tried: seq<Result>)
    requires |replies| == 3 && 1 <= |tried| <= 3 && forall k :: 0 <= k < |tried| ==> Fits(core, replies[k], tried[k])
    requires forall k :: 0 <= k < |tried| - 1 ==> tried[k].Err? && IsRetryable(tried[k].error)
    requires Decisive(tried[|tried| - 1]) || |tried| == 3
    ensures tried[|tried| - 1].Ok? <==> exists k: nat :: Decides(core, replies, k)
  {
    var last := |tried| - 1;
    assert forall k :: 0 <= k < last ==> Fits(core, replies[k], tried[k]) && !Usable(core, replies[k]);
    assert Fits(core, replies[last], tried[last]);
    if tried[last].Ok? { assert Decides(core, replies, last); }
    assert last < 2 ==> !Repeats(core, replies[last]);
    forall k: nat | Decides(core, replies, k) ensures k == last {}
  }

  /** When no sleep is cancelled, a text is translated exactly if one of three replies decides. */
  lemma TranslatedIff(core: string, replies: seq<Reply>, r: Result)
    requires |replies| == 3 && RetriesTo(core, replies, [true, true], r)
    ensures r.Ok? <==> exists k: nat :: Decides(core, replies, k)
  {
    var tried: seq<Result> :| IsRetryRun(core, replies, [true, true], tried) && r == RunResult(tried);
    AttemptsFit(core, replies, tried);
    RunDecides(core, replies, tried);
  }

  function Wrapped(prefix: string, r: Result, suffix: string): Result {
    if r.Ok? then Ok(prefix + r.text + suffix) else r
  }

  /** A text that is all outer white space is returned as it is; otherwise its core is translated in place. */
  ghost predicate TranslatesTo(text: string, replies: seq<Reply>, slept: seq<bool>, r: Result)
    requires |replies| == 3 && |slept| == 2
  {
    exists prefix, core, suffix :: IsSplit(text, prefix, core, suffix)
        && CoreTranslatesTo(prefix, core, suffix, replies, slept, r)
  }

  ghost predicate CoreTranslatesTo(prefix: string, core: string, suffix: string, replies: seq<Reply>,
                                   slept: seq<bool>, r: Result)
    requires |replies| == 3 && |slept| == 2
  {
    if core == "" then r == Ok(prefix + core + suffix)
    else exists inner :: RetriesTo(core, replies, slept, inner) && r == Wrapped(prefix, inner, suffix)
  }

  method Translate(text: string, replies: seq<Reply>, slept: seq<bool>) returns (r: Result)
    requires |replies| == 3 && |slept| == 2
    ensures TranslatesTo(text, replies, slept, r)
  {
    var prefix, core, suffix := SplitWhitespace(text);
    if core == "" {
      assert CoreTranslatesTo(prefix, core, suffix, replies, slept, Ok(text));
      return Ok(text);
    }
    var inner := TranslateWithRetry(core, replies, slept);
    r := if inner.Err? then inner else Ok(prefix + inner.text + suffix);
    assert CoreTranslatesTo(prefix, core, suffix, replies, slept, r);
  }

  /** A translator that echoes its prompts. */
  ghost predicate EchoesPrompts(core: string, replies: seq<Reply>) {
    forall k :: 0 <= k < |replies| ==> replies[k] == Answer(MaskedText(core))
  }

  lemma EchoRetries(core: string, replies: seq<Reply>, slept: seq<bool>, r: Result)
    requires |replies| == 3 && |slept| == 2 && core != "" && CoresAbsent(core)
    requires EchoesPrompts(core, replies) && RetriesTo(core, replies, slept, r)
    ensures r == Ok(core) <==> Trimmed(MaskedText(core)) && !MappingHides(FinalWork(core))
  {
    var tried :| IsRetryRun(core, replies, slept, tried) && r == RunResult(tried);
    EchoIff(core, tried[|tried| - 1]);
    EchoIff(core, tried[0]);
  }

  /**
   A translator that echoes its prompts gives a text back unchanged exactly when it is all outer
   white space, or its masked core is trimmed and no masked part hides another.
   */
  lemma EchoTranslates(text: string, prefix: string, core: string, suffix: string,
                       replies: seq<Reply>, slept: seq<bool>, r: Result)
    requires |replies| == 3 && |slept| == 2 && IsSplit(text, prefix, core, suffix) && CoresAbsent(core)
    requires EchoesPrompts(core, replies) && TranslatesTo(text, replies, slept, r)
    ensures r == Ok(text) <==> core == "" || (Trimmed(MaskedText(core)) && !MappingHides(FinalWork(core)))
  {
    var p, c, q :| IsSplit(text, p, c, q) && CoreTranslatesTo(p, c, q, replies, slept, r);
    SplitIsUnique(text, prefix, core, suffix, p, c, q);
    if core != "" {
      var inner :| RetriesTo(core, replies, slept, inner) && r == Wrapped(prefix, inner, suffix);
      EchoRetries(core, replies, slept, inner);
      WrappedIff(prefix, core, suffix, inner);
    }
  }

  lemma WrappedIff(prefix: string, core: string, suffix: string, r: Result)
    ensures Wrapped(prefix, r, suffix) == Ok(prefix + core + suffix) <==> r == Ok(core)
  {
    if r.Ok? && prefix + r.text + suffix == prefix + core + suffix {
      var a, b := prefix + r.text + suffix, prefix + core + suffix;
      assert a[|prefix|..|a| - |suffix|] == r.text && b[|prefix|..|b| - |suffix|] == core;
    }
  }
}
