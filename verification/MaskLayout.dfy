/**
 Why masking is fail-safe. A working text is laid out as plain characters and placeholder
 tokens; the layout is followed through the three passes and through unmasking.
 */
module MaskLayout {
  import opened Text
  import opened Masking

  datatype Tok = Ch(c: char) | Ph(n: nat)

  /** The text of a layout when each token is written as `show` says. */
  function Render(show: Tok -> string, ts: seq<Tok>): string {
    if ts == [] then "" else show(ts[0]) + Render(show, ts[1..])
  }

  lemma {:induction false} RenderConcat(show: Tok -> string, a: seq<Tok>, b: seq<Tok>)
    ensures Render(show, a + b) == Render(show, a) + Render(show, b)
  {
    if a == [] { assert a + b == b; }
    else {
      RenderConcat(show, a[1..], b);
      assert (a + b)[1..] == a[1..] + b;
      assert show(a[0]) + (Render(show, a[1..]) + Render(show, b)) == show(a[0]) + Render(show, a[1..])
          + Render(show, b);
    }
  }

  lemma RenderOne(show: Tok -> string, t: Tok)
    ensures Render(show, [t]) == show(t)
  {
    assert Render(show, [t][1..]) == "";
  }

  lemma {:induction false} RenderSame(f: Tok -> string, g: Tok -> string, ts: seq<Tok>)
    requires forall t :: t in ts ==> f(t) == g(t)
    ensures Render(f, ts) == Render(g, ts)
  {
    if ts != [] { RenderSame(f, g, ts[1..]); }
  }

  const Show: Tok -> string := (t: Tok) => if t.Ch? then [t.c] else Placeholder(t.n)

  /** The working text itself. */
  function Flatten(ts: seq<Tok>): string { Render(Show, ts) }

  /** Every placeholder replaced by the piece of source text it stands for. */
  function Meaning(full: map<nat, string>): Tok -> string {
    (t: Tok) => if t.Ch? then [t.c] else if t.n in full then full[t.n] else ""
  }

  function Expand(ts: seq<Tok>, full: map<nat, string>): string { Render(Meaning(full), ts) }

  lemma FlattenConcat(a: seq<Tok>, b: seq<Tok>)
    ensures Flatten(a + b) == Flatten(a) + Flatten(b)
  {
    RenderConcat(Show, a, b);
  }

  lemma ExpandConcat(a: seq<Tok>, b: seq<Tok>, full: map<nat, string>)
    ensures Expand(a + b, full) == Expand(a, full) + Expand(b, full)
  {
    RenderConcat(Meaning(full), a, b);
  }

  lemma ExpandUnaffected(ts: seq<Tok>, full: map<nat, string>, n: nat, text: string)
    requires Ph(n) !in ts
    ensures Expand(ts, full[n := text]) == Expand(ts, full)
  {
    RenderSame(Meaning(full[n := text]), Meaning(full), ts);
  }

  lemma PlainText(ts: seq<Tok>, full: map<nat, string>)
    requires forall t :: t in ts ==> t.Ch?
    ensures Flatten(ts) == Expand(ts, full)
  {
    RenderSame(Show, Meaning(full), ts);
  }

  // ---------------------------------------------------------------- layouts

  /** The allocated numbers in order, what each one masks, and the source text each one stands for. */
  datatype Layout = Layout(names: seq<nat>, values: seq<seq<Tok>>, full: map<nat, string>)

  function Pool(values: seq<seq<Tok>>): seq<Tok> {
    if values == [] then [] else Pool(values[..|values| - 1]) + values[|values| - 1]
  }

  /** The j-th masked part holds only earlier placeholders, and expands to the text its placeholder stands for. */
  ghost predicate SoundAt(l: Layout, j: nat) {
    && j < |l.names| && j < |l.values| && l.names[j] in l.full
    && (forall n: nat :: Ph(n) in l.values[j] ==> n in l.names && n < l.names[j])
    && Expand(l.values[j], l.full) == l.full[l.names[j]]
  }

  ghost predicate Sound(l: Layout) {
    && |l.names| == |l.values|
    && (forall i, j :: 0 <= i < j < |l.names| ==> l.names[i] < l.names[j])
    && (forall n: nat :: n in l.full <==> n in l.names)
    && (forall j: nat :: j < |l.values| ==> SoundAt(l, j))
  }

  lemma NameOrder(l: Layout, i: nat, j: nat)
    requires Sound(l) && i < |l.names| && j < |l.names| && l.names[i] < l.names[j]
    ensures i < j
  {}

  /** `work` is a layout of `source`: it expands to it, and every placeholder is in exactly one place. */
  ghost predicate Lays(l: Layout, work: seq<Tok>, source: string) {
    && Sound(l)
    && (forall n: nat :: Ph(n) in work ==> n in l.names)
    && Expand(work, l.full) == source
    && (forall n: nat :: n in l.names ==> multiset(work + Pool(l.values))[Ph(n)] == 1)
    && (forall n: nat :: n in l.names ==> Contains(source, l.full[n]))
  }

  function Masked(l: Layout, n: nat, b: seq<Tok>): Layout {
    Layout(l.names + [n], l.values + [b], l.full[n := Expand(b, l.full)])
  }

  lemma MaskStepSound(l: Layout, b: seq<Tok>, n: nat)
    requires Sound(l) && (forall m :: m in l.names ==> m < n) && forall m: nat :: Ph(m) in b ==> m in l.names
    ensures Sound(Masked(l, n, b))
  {
    var masked := Masked(l, n, b);
    forall j: nat | j < |masked.values| ensures SoundAt(masked, j) {
      if j < |l.values| { OldPartSound(l, b, n, j); } else { NewPartSound(l, b, n); }
    }
    assert forall k: nat :: k in masked.names <==> k in l.names || k == n;
    assert forall i :: 0 <= i < |l.names| ==> l.names[i] in l.names;
  }

  lemma NewPartSound(l: Layout, b: seq<Tok>, n: nat)
    requires Sound(l) && (forall m :: m in l.names ==> m < n) && forall m: nat :: Ph(m) in b ==> m in l.names
    ensures SoundAt(Masked(l, n, b), |l.values|)
  {
    assert Ph(n) !in b;
    ExpandUnaffected(b, l.full, n, Expand(b, l.full));
  }

  lemma OldPartSound(l: Layout, b: seq<Tok>, n: nat, j: nat)
    requires Sound(l) && (forall m :: m in l.names ==> m < n) && j < |l.values|
    ensures SoundAt(Masked(l, n, b), j)
  {
    assert SoundAt(l, j) && l.names[j] in l.names;
    assert Ph(n) !in l.values[j];
    ExpandUnaffected(l.values[j], l.full, n, Expand(b, l.full));
  }

  lemma ContainsMiddle(a: string, b: string, c: string)
    ensures Contains(a + b + c, b)
  {
    assert (a + b + c)[|a|..|a| + |b|] == b;
    assert OccursAt(a + b + c, |a|, b);
  }

  lemma MaskStepExpands(l: Layout, a: seq<Tok>, b: seq<Tok>, c: seq<Tok>, n: nat)
    requires Ph(n) !in a && Ph(n) !in c
    ensures Expand(a + [Ph(n)] + c, Masked(l, n, b).full) == Expand(a + b + c, l.full)
    ensures Expand(a + b + c, l.full) == Expand(a, l.full) + Expand(b, l.full) + Expand(c, l.full)
  {
    var full := Masked(l, n, b).full;
    ExpandConcat(a + b, c, l.full);
    ExpandConcat(a, b, l.full);
    ExpandConcat(a + [Ph(n)], c, full);
    ExpandConcat(a, [Ph(n)], full);
    ExpandUnaffected(a, l.full, n, Expand(b, l.full));
    ExpandUnaffected(c, l.full, n, Expand(b, l.full));
    RenderOne(Meaning(full), Ph(n));
  }

  lemma MaskStepCounts(l: Layout, a: seq<Tok>, b: seq<Tok>, c: seq<Tok>, n: nat)
    ensures multiset(a + [Ph(n)] + c + Pool(Masked(l, n, b).values))
         == multiset(a + b + c + Pool(l.values)) + multiset{Ph(n)}
  {
    PoolAppend(l.values, b);
  }

  lemma MaskStepOnePlace(l: Layout, a: seq<Tok>, b: seq<Tok>, c: seq<Tok>, source: string, n: nat, k: nat)
    requires Lays(l, a + b + c, source) && n !in l.names && k in l.names + [n]
    ensures multiset(a + [Ph(n)] + c + Pool(Masked(l, n, b).values))[Ph(k)] == 1
  {
    MaskStepCounts(l, a, b, c, n);
    NotInPool(l, n);
    if k == n { assert Ph(n) !in a + b + c + Pool(l.values); }
  }

  lemma MaskStepSource(l: Layout, a: seq<Tok>, b: seq<Tok>, c: seq<Tok>, source: string, n: nat)
    requires Lays(l, a + b + c, source) && n !in l.names
    ensures Expand(a + [Ph(n)] + c, Masked(l, n, b).full) == source
    ensures Contains(source, Expand(b, l.full))
  {
    MaskStepNames(l, a, b, c, source, n);
    MaskStepExpands(l, a, b, c, n);
    ContainsMiddle(Expand(a, l.full), Expand(b, l.full), Expand(c, l.full));
  }

  lemma MaskStepNames(l: Layout, a: seq<Tok>, b: seq<Tok>, c: seq<Tok>, source: string, n: nat)
    requires Lays(l, a + b + c, source) && n !in l.names
    ensures forall m: nat :: Ph(m) in a || Ph(m) in b || Ph(m) in c ==> m in l.names
    ensures Ph(n) !in a && Ph(n) !in c
  {
    forall m: nat | Ph(m) in a || Ph(m) in b || Ph(m) in c ensures m in l.names { assert Ph(m) in a + b + c; }
  }

  /** Masking one more part of the working text. */
  lemma MaskStep(l: Layout, a: seq<Tok>, b: seq<Tok>, c: seq<Tok>, source: string, n: nat)
    requires Lays(l, a + b + c, source) && forall m :: m in l.names ==> m < n
    ensures Lays(Masked(l, n, b), a + [Ph(n)] + c, source)
  {
    var m := Masked(l, n, b);
    MaskStepNames(l, a, b, c, source, n);
    MaskStepSound(l, b, n);
    MaskStepSource(l, a, b, c, source, n);
    forall k: nat | k in m.names ensures multiset(a + [Ph(n)] + c + Pool(m.values))[Ph(k)] == 1 {
      MaskStepOnePlace(l, a, b, c, source, n, k);
    }
  }

  lemma PoolAppend(values: seq<seq<Tok>>, b: seq<Tok>)
    ensures Pool(values + [b]) == Pool(values) + b
  {
    assert (values + [b])[..|values|] == values;
  }

  lemma {:induction false} PoolMember(values: seq<seq<Tok>>, t: Tok)
    ensures t in Pool(values) <==> exists j :: 0 <= j < |values| && t in values[j]
  {
    if values != [] {
      var last := |values| - 1;
      PoolMember(values[..last], t);
      if j :| 0 <= j < |values| && t in values[j] { assert j < last ==> t in values[..last][j]; }
    }
  }

  lemma NotInPool(l: Layout, n: nat)
    requires Sound(l) && n !in l.names
    ensures Ph(n) !in Pool(l.values)
  {
    PoolMember(l.values, Ph(n));
    forall j: nat | j < |l.values| ensures Ph(n) !in l.values[j] { assert SoundAt(l, j); }
  }

  // ---------------------------------------------------------------- cutting at marks

  lemma NoMarks(n: nat, i: nat)
    requires i < |Placeholder(n)|
    ensures !IsMark(Placeholder(n)[i])
  {
    var digits := Decimal(n);
    if |PREFIX| <= i < |PREFIX| + |digits| { assert Placeholder(n)[i] == digits[i - |PREFIX|]; }
  }

  ghost predicate CutHere(text: string, q: nat) {
    q <= |text| && (q == 0 || q == |text| || IsMark(text[q]) || IsMark(text[q - 1]))
  }

  /** A position next to a mark never lies inside a token without marks. */
  lemma {:induction false} CutRender(show: Tok -> string, ts: seq<Tok>, q: nat) returns (k: nat)
    requires CutHere(Render(show, ts), q)
    requires forall t, i: nat :: t in ts && i < |show(t)| && |show(t)| != 1 ==> !IsMark(show(t)[i])
    ensures k <= |ts| && Render(show, ts[..k]) == Render(show, ts)[..q]
           && Render(show, ts[k..]) == Render(show, ts)[q..]
  {
    if q == 0 {
      k := 0;
      assert ts[0..] == ts;
    } else {
      var head, tail := show(ts[0]), Render(show, ts[1..]);
      var text := head + tail;
      assert Render(show, ts) == text;
      assert forall i :: 0 <= i < |head| ==> text[i] == head[i];
      assert ts[0] in ts && q >= |head|;
      var r := q - |head|;
      assert r > 0 ==> tail[r - 1] == text[q - 1];
      assert r < |tail| ==> tail[r] == text[q];
      var j := CutRender(show, ts[1..], r);
      k := j + 1;
      assert ts[..k][1..] == ts[1..][..j] && ts[k..] == ts[1..][j..];
      assert head + tail[..r] == text[..q] && tail[r..] == text[q..];
    }
  }

  lemma CutAt(ts: seq<Tok>, q: nat) returns (k: nat)
    requires CutHere(Flatten(ts), q)
    ensures k <= |ts| && Flatten(ts[..k]) == Flatten(ts)[..q] && Flatten(ts[k..]) == Flatten(ts)[q..]
  {
    forall t, i: nat | t in ts && i < |Show(t)| && |Show(t)| != 1 ensures !IsMark(Show(t)[i]) {
      NoMarks(t.n, i);
    }
    k := CutRender(Show, ts, q);
  }

  // ---------------------------------------------------------------- what stands around a token

  /** The text that placeholder n stands for starts with a mark. */
  predicate Sharp(full: map<nat, string>, n: nat) { n in full && full[n] != "" && IsMark(full[n][0]) }

  predicate SharpTokens(full: map<nat, string>, ts: seq<Tok>) {
    forall i :: 0 <= i < |ts| && ts[i].Ph? ==> Sharp(full, ts[i].n)
  }

  ghost predicate SharpValues(l: Layout) { forall j :: 0 <= j < |l.values| ==> SharpTokens(l.full, l.values[j]) }

  predicate StartsPlainMark(ts: seq<Tok>) { ts != [] && ts[0].Ch? && IsMark(ts[0].c) }

  /** A token that is not sharp has a plain mark right behind it. */
  predicate Guarded(full: map<nat, string>, ts: seq<Tok>) {
    forall i :: 0 <= i < |ts| && ts[i].Ph? ==> Sharp(full, ts[i].n) || StartsPlainMark(ts[i + 1..])
  }

  /** Code spans and angle links start with a mark; link targets have something before and a mark behind. */
  predicate IsKind(text: string, s: Span, sharp: bool) {
    if sharp then s.start < |text| && IsMark(text[s.start])
    else s.guard < s.start && s.stop < |text| && IsMark(text[s.stop])
  }

  lemma {:induction false} SpansAreKind(pattern: Pattern, text: string, i: nat)
    requires i <= |text|
    ensures forall k :: 0 <= k < |FindAll(pattern, text, i)| ==>
              IsKind(text, FindAll(pattern, text, i)[k], !pattern.LinkUrl?)
    decreases |text| - i
  {
    if i < |text| {
      match MatchAt(pattern, text, i)
      case Some(m) =>
        MatchIsKind(pattern, text, i);
        SpansAreKind(pattern, text, m.end);
      case None => SpansAreKind(pattern, text, i + 1);
    }
  }

  lemma MatchIsKind(pattern: Pattern, text: string, i: nat)
    requires i < |text| && MatchAt(pattern, text, i).Some?
    ensures IsKind(text, MatchAt(pattern, text, i).value.span, !pattern.LinkUrl?)
  {
    OccursChar(text, i, "`", 0);
    OccursChar(text, i, "<https://", 0);
    OccursChar(text, i, "<http://", 0);
  }

  /** A mark is only read off a plain character. */
  lemma MarkIsPlain(ts: seq<Tok>, full: map<nat, string>)
    requires Flatten(ts) != "" && IsMark(Flatten(ts)[0])
    ensures StartsPlainMark(ts) && Expand(ts, full) != "" && Expand(ts, full)[0] == ts[0].c
  {
    assert Flatten(ts) == Show(ts[0]) + Flatten(ts[1..]);
    if ts[0].Ph? { NoMarks(ts[0].n, 0); }
  }

  /** What holds between what a pass has done and what is left: nothing left is blunt, and what is done is guarded. */
  ghost predicate PassGuard(l: Layout, done: seq<Tok>, rest: seq<Tok>, sharp: bool) {
    && SharpValues(l) && SharpTokens(l.full, rest)
    && if sharp then SharpTokens(l.full, done) else Guarded(l.full, done + rest)
  }

  lemma SharpKept(full: map<nat, string>, ts: seq<Tok>, n: nat, text: string)
    requires n !in full && SharpTokens(full, ts)
    ensures SharpTokens(full[n := text], ts)
  {}

  lemma GuardStep(l: Layout, done: seq<Tok>, a: seq<Tok>, b: seq<Tok>, c: seq<Tok>, n: nat, sharp: bool)
    requires PassGuard(l, done, a + b + c, sharp) && n !in l.full
    requires if sharp then Flatten(b) != "" && IsMark(Flatten(b)[0])
             else a != [] && Flatten(c) != "" && IsMark(Flatten(c)[0])
    ensures PassGuard(Masked(l, n, b), done + a + [Ph(n)], c, sharp)
  {
    var rest, l' := a + b + c, Masked(l, n, b);
    assert forall i :: 0 <= i < |a| ==> a[i] == rest[i];
    assert forall i :: 0 <= i < |b| ==> b[i] == rest[|a| + i];
    assert forall i :: 0 <= i < |c| ==> c[i] == rest[|a| + |b| + i];
    forall j | 0 <= j < |l'.values| ensures SharpTokens(l'.full, l'.values[j]) {
      SharpKept(l.full, l'.values[j], n, Expand(b, l.full));
    }
    SharpKept(l.full, a, n, Expand(b, l.full));
    SharpKept(l.full, c, n, Expand(b, l.full));
    if sharp {
      SharpKept(l.full, done, n, Expand(b, l.full));
      MarkIsPlain(b, l.full);
    } else {
      MarkIsPlain(c, l.full);
      GuardAdded(l.full, done, a, b, c, n);
    }
  }

  lemma GuardAdded(full: map<nat, string>, done: seq<Tok>, a: seq<Tok>, b: seq<Tok>, c: seq<Tok>, n: nat)
    requires Guarded(full, done + (a + b + c)) && SharpTokens(full, a) && SharpTokens(full, c) && n !in full
    requires a != [] && StartsPlainMark(c)
    ensures Guarded(full[n := Expand(b, full)], done + a + [Ph(n)] + c)
  {
    var before, after, full' := done + (a + b + c), done + a + [Ph(n)] + c, full[n := Expand(b, full)];
    forall i | 0 <= i < |after| && after[i].Ph? ensures Sharp(full', after[i].n) || StartsPlainMark(after[i + 1..]) {
      if i < |done| {
        assert before[i] == after[i] && before[i + 1..][0] == before[i + 1] == after[i + 1] == after[i + 1..][0];
      } else if i < |done| + |a| {
        assert after[i] == a[i - |done|];
      } else if i == |done| + |a| {
        assert after[i + 1..] == c;
      } else {
        assert after[i] == c[i - |done| - |a| - 1];
      }
    }
  }

  // ---------------------------------------------------------------- passes

  /** The i-th placeholder stands for the i-th masked part, and is not in the source. */
  ghost predicate RepresentsAt(l: Layout, w: Work, hits: set<string>, i: nat) {
    && i < |l.names| && i < |l.values| && i < |w.placeholders|
    && w.placeholders[i] == Placeholder(l.names[i])
    && w.placeholders[i] in w.mapping && w.mapping[w.placeholders[i]] == Flatten(l.values[i])
    && 900000 <= l.names[i] < w.counter && w.placeholders[i] !in hits
  }

  /** The allocator, placeholder list and mapping that go with a layout. */
  ghost predicate Represents(l: Layout, w: Work, hits: set<string>) {
    && |l.names| == |l.values| == |w.placeholders|
    && (forall i: nat :: i < |l.names| ==> RepresentsAt(l, w, hits, i))
    && hits <= w.used && 900000 <= w.counter
  }

  lemma RecordedRepresents(l: Layout, w: Work, hits: set<string>, b: seq<Tok>, original: string, n: nat)
    requires Represents(l, w, hits) && original == Flatten(b) && n == FreshFrom(w.used, w.counter)
    ensures Represents(Masked(l, n, b), Recorded(w, original), hits)
  {
    forall i: nat | i <= |l.names| ensures RepresentsAt(Masked(l, n, b), Recorded(w, original), hits, i) {
      if i < |l.names| { RecordedStays(l, w, hits, b, n, i); }
    }
  }

  lemma RecordedStays(l: Layout, w: Work, hits: set<string>, b: seq<Tok>, n: nat, i: nat)
    requires Represents(l, w, hits) && i < |l.names| && n == FreshFrom(w.used, w.counter)
    ensures RepresentsAt(Masked(l, n, b), Recorded(w, Flatten(b)), hits, i)
  {
    assert RepresentsAt(l, w, hits, i);
    if w.placeholders[i] == Placeholder(n) { PlaceholderInjective(l.names[i], n); }
  }

  lemma NamesBelow(l: Layout, w: Work, hits: set<string>, n: nat)
    requires Represents(l, w, hits) && w.counter <= n
    ensures forall m :: m in l.names ==> m < n
  {
    forall m | m in l.names ensures m < n {
      var i: nat :| i < |l.names| && l.names[i] == m;
      assert RepresentsAt(l, w, hits, i);
    }
  }

  lemma RestParts(text: string, rest: string, i: nat, k: nat)
    requires i <= k <= |text| && rest == text[i..]
    ensures rest[..k - i] == text[i..k] && rest[k - i..] == text[k..]
  {}

  lemma CutRest(rest: seq<Tok>, text: string, pos: nat, q: nat) returns (a: seq<Tok>, c: seq<Tok>)
    requires pos <= q <= |text| && Flatten(rest) == text[pos..]
    requires (q < |text| && IsMark(text[q])) || (q > 0 && IsMark(text[q - 1]))
    ensures rest == a + c && Flatten(a) == text[pos..q] && Flatten(c) == text[q..]
  {
    RestParts(text, Flatten(rest), pos, q);
    assert q < |text| ==> Flatten(rest)[q - pos] == text[q];
    assert q > pos ==> Flatten(rest)[q - pos - 1] == text[q - 1];
    var i := CutAt(rest, q - pos);
    a, c := rest[..i], rest[i..];
  }

  /** The unmasked remainder of a pass splits into what precedes a match, the masked part and what follows. */
  lemma CutSpan(rest: seq<Tok>, text: string, pos: nat, s: Span) returns (a: seq<Tok>, b: seq<Tok>, c: seq<Tok>)
    requires pos <= s.guard && WellPlaced(text, s) && Flatten(rest) == text[pos..]
    ensures rest == a + b + c
    ensures Flatten(a) == text[pos..s.start] && Flatten(b) == text[s.start..s.stop] && Flatten(c) == text[s.stop..]
  {
    var bc;
    a, bc := CutRest(rest, text, pos, s.start);
    b, c := CutRest(bc, text, s.start, s.stop);
  }

  lemma SpanGuarded(l: Layout, done: seq<Tok>, a: seq<Tok>, b: seq<Tok>, c: seq<Tok>, n: nat, sharp: bool,
                    text: string, pos: nat, s: Span)
    requires PassGuard(l, done, a + b + c, sharp) && Sound(l) && forall m :: m in l.names ==> m < n
    requires pos <= s.guard && WellPlaced(text, s) && IsKind(text, s, sharp)
    requires Flatten(a) == text[pos..s.start] && Flatten(b) == text[s.start..s.stop] && Flatten(c) == text[s.stop..]
    ensures PassGuard(Masked(l, n, b), done + a + [Ph(n)], c, sharp)
  {
    assert n !in l.full;
    assert Flatten(b)[0] == text[s.start];
    if s.stop < |text| { assert Flatten(c)[0] == text[s.stop]; }
    GuardStep(l, done, a, b, c, n, sharp);
  }

  /** One turn of the masking loop. */
  lemma PassStep(l: Layout, done: seq<Tok>, rest: seq<Tok>, source: string,
                 text: string, pos: nat, s: Span, w: Work, hits: set<string>, sharp: bool)
    returns (l': Layout, done': seq<Tok>, rest': seq<Tok>)
    requires Lays(l, done + rest, source) && Represents(l, w, hits)
    requires PassGuard(l, done, rest, sharp) && IsKind(text, s, sharp)
    ensures PassGuard(l', done', rest', sharp)
    requires pos <= s.guard && WellPlaced(text, s) && Flatten(rest) == text[pos..]
    ensures Lays(l', done' + rest', source) && Represents(l', Recorded(w, text[s.start..s.stop]), hits)
    ensures Flatten(done') == Flatten(done) + text[pos..s.start] + Placeholder(FreshFrom(w.used, w.counter))
    ensures Flatten(rest') == text[s.stop..]
  {
    var n := FreshFrom(w.used, w.counter);
    var a, b, c := CutSpan(rest, text, pos, s);
    assert done + rest == (done + a) + b + c;
    NamesBelow(l, w, hits, n);
    SpanGuarded(l, done, a, b, c, n, sharp, text, pos, s);
    MaskStep(l, done + a, b, c, source, n);
    RecordedRepresents(l, w, hits, b, text[s.start..s.stop], n);
    l', done', rest' := Masked(l, n, b), done + a + [Ph(n)], c;
    DoneText(done, a, n);
  }

  lemma DoneText(done: seq<Tok>, a: seq<Tok>, n: nat)
    ensures Flatten(done + a + [Ph(n)]) == Flatten(done) + Flatten(a) + Placeholder(n)
  {
    FlattenConcat(done + a, [Ph(n)]);
    FlattenConcat(done, a);
    RenderOne(Show, Ph(n));
  }

  ghost predicate AllPlaced(text: string, spans: seq<Span>, sharp: bool) {
    InRange(text, spans) && forall k :: 0 <= k < |spans| ==> WellPlaced(text, spans[k]) && IsKind(text, spans[k], sharp)
  }

  lemma {:induction false} PassLays(l: Layout, done: seq<Tok>, rest: seq<Tok>, source: string,
                                    text: string, pos: nat, spans: seq<Span>, w: Work, hits: set<string>, sharp: bool)
    returns (l': Layout, work: seq<Tok>)
    requires Lays(l, done + rest, source) && Represents(l, w, hits) && PassGuard(l, done, rest, sharp)
    requires pos <= |text| && Flatten(rest) == text[pos..] && AllPlaced(text, spans, sharp)
    ensures PassGuard(l', work, [], sharp)
    ensures Lays(l', work, source) && Represents(l', MaskFrom(text, pos, spans, w).1, hits)
    ensures Flatten(work) == Flatten(done) + MaskFrom(text, pos, spans, w).0
    decreases |spans|
  {
    if spans == [] {
      l', work := l, done + rest;
      FlattenConcat(done, rest);
      assert work + [] == work;
    } else if spans[0].guard < pos {
      l', work := PassLays(l, done, rest, source, text, pos, spans[1..], w, hits, sharp);
    } else {
      var s := spans[0];
      var l1, done', rest' := PassStep(l, done, rest, source, text, pos, s, w, hits, sharp);
      MaskFromCons(Flatten(done), text, pos, spans, w);
      l', work := PassLays(l1, done', rest', source, text, s.stop, spans[1..], Recorded(w, text[s.start..s.stop]),
          hits, sharp);
    }
  }

  function Chars(text: string): seq<Tok> {
    seq(|text|, i requires 0 <= i < |text| => Ch(text[i]))
  }

  lemma {:induction false} CharsMeaning(text: string, full: map<nat, string>)
    ensures Flatten(Chars(text)) == text && Expand(Chars(text), full) == text
  {
    if text != "" {
      CharsMeaning(text[1..], full);
      assert Chars(text)[1..] == Chars(text[1..]);
    }
  }

  lemma PatternPass(pattern: Pattern, l: Layout, work: seq<Tok>, source: string, text: string, w: Work,
                    hits: set<string>)
    returns (l': Layout, work': seq<Tok>)
    requires Lays(l, work, source) && Represents(l, w, hits) && Flatten(work) == text
    requires SharpValues(l) && SharpTokens(l.full, work)
    ensures Lays(l', work', source) && Represents(l', MaskPass(pattern, text, w).1, hits)
    ensures Flatten(work') == MaskPass(pattern, text, w).0
    ensures SharpValues(l') && Guarded(l'.full, work') && (!pattern.LinkUrl? ==> SharpTokens(l'.full, work'))
  {
    SpansAreKind(pattern, text, 0);
    assert [] + work == work && text[0..] == text;
    l', work' := PassLays(l, [], work, source, text, 0, FindAll(pattern, text, 0), w, hits, !pattern.LinkUrl?);
    assert work' + [] == work';
    assert "" + MaskPass(pattern, text, w).0 == MaskPass(pattern, text, w).0;
  }

  /** The three passes, on any text, leave a layout of that text. */
  lemma MaskTextLays(source: string) returns (l: Layout, work: seq<Tok>)
    ensures var (masked, w) := MaskText(source, InitialWork(source));
            && Lays(l, work, source) && Flatten(work) == masked
            && Represents(l, w, PlaceholderHits(source, 0))
    ensures SharpValues(l) && Guarded(l.full, work)
  {
    var hits, w := PlaceholderHits(source, 0), InitialWork(source);
    l, work := Layout([], [], map[]), Chars(source);
    CharsMeaning(source, map[]);
    var coded := MaskPass(InlineCode, source, w);
    var angled := MaskPass(AngleLink, coded.0, coded.1);
    l, work := PatternPass(InlineCode, l, work, source, source, w, hits);
    l, work := PatternPass(AngleLink, l, work, source, coded.0, coded.1, hits);
    l, work := PatternPass(LinkUrl, l, work, source, angled.0, angled.1, hits);
  }
}
