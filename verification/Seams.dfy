/**
 When unmasking the untouched text fails: the texts of source and result part at the first
 placeholder that is read across a seam, and never meet again.
 */
module Seams {
  import opened Text
  import opened Masking
  import opened MaskLayout
  import opened Unmasking

  // ---------------------------------------------------------------- texts that have parted

  /** A placeholder whose trailing underscores, or all but one of them, are gone. */
  function Stump(a: nat, left: bool): string { PREFIX + Decimal(a) + if left then "_" else "" }

  ghost predicate Broken(z: string, a: nat, left: bool) {
    HasPrefix(z, Stump(a, left)) && |Stump(a, left)| < |z| && IsMark(z[|Stump(a, left)|])
  }

  /** Where the one has a mark, the other has an underscore that no later round replaces. */
  ghost predicate Parted(z: string, w: string) {
    || (z != "" && IsMark(z[0]) && w != "" && w[0] == '_')
    || (w != "" && IsMark(w[0]) && exists a: nat, left: bool :: Broken(z, a, left))
  }

  /** No placeholder is read within a stump that ends at a mark. */
  lemma NothingInStump(z: string, a: nat, left: bool, n: nat, i: nat)
    requires Broken(z, a, left) && i <= |Stump(a, left)|
    ensures !OccursAt(z, i, Placeholder(n))
  {
    if OccursAt(z, i, Placeholder(n)) {
      var s, p := Stump(a, left), Placeholder(n);
      ShowsUnderscores(n);
      CoreIsInner(n);
      assert forall k :: 0 <= k < |s| ==> z[k] == z[..|s|][k] == s[k];
      assert forall k :: 0 <= k < |p| ==> z[i + k] == z[i..i + |p|][k] == p[k];
      if i + |p| > |s| {
        NoMarks(n, |s| - i);
      }
    }
  }

  lemma {:induction false} PartedStays(z: string, w: string, n: nat, v: string)
    requires Parted(z, w)
    ensures Parted(ReplaceAll(z, Placeholder(n), v), w)
  {
    if IsMark(z[0]) {
      if OccursAt(z, 0, Placeholder(n)) {
        OccursChar(z, 0, Placeholder(n), 0);
        NoMarks(n, 0);
      }
      ReplaceStep(z, Placeholder(n), v);
    } else {
      var a: nat, left: bool :| Broken(z, a, left);
      BrokenStays(z, a, left, n, v);
    }
  }

  lemma BrokenStays(z: string, a: nat, left: bool, n: nat, v: string)
    requires Broken(z, a, left)
    ensures Broken(ReplaceAll(z, Placeholder(n), v), a, left)
  {
    var k := |Stump(a, left)|;
    var head, tail := z[..k + 1], z[k + 1..];
    assert z == head + tail;
    forall i: nat | i < |head| ensures !OccursAt(head + tail, i, Placeholder(n)) { NothingInStump(z, a, left, n, i); }
    ReplaceSkips(head, tail, Placeholder(n), v);
    var after := head + ReplaceAll(tail, Placeholder(n), v);
    assert after[..k] == head[..k] == z[..k] && after[k] == head[k] == z[k];
  }

  lemma PartedIsBlunt(z: string, w: string)
    requires Parted(z, w)
    ensures Blunt(z) && z != ""
  {
    if !IsMark(z[0]) {
      var a: nat, left: bool :| Broken(z, a, left);
      assert z[..2] == z[..|Stump(a, left)|][..2] == "__";
    }
  }

  // ---------------------------------------------------------------- one round

  ghost predicate SameOrParted(z: string, w: string) { (z == "" && w == "") || Parted(z, w) }

  /** The text is laid out as x up to a point from which on it has z where the source has w. */
  ghost predicate Reaches(text: string, source: string, x: seq<Tok>, z: string, w: string, full: map<nat, string>) {
    text == Flatten(x) + z && source == Expand(x, full) + w && Guarded(full, x) && SameOrParted(z, w)
  }

  ghost predicate StartsWithMark(v: string) { v != "" && IsMark(v[0]) }

  lemma FirstReplaced(text: string, p: string, v: string)
    requires p != "" && HasPrefix(text, p) && StartsWithMark(v)
    ensures StartsWithMark(ReplaceAll(text, p, v))
  {}

  lemma MeantFirst(x: seq<Tok>, w: string, full: map<nat, string>)
    requires x != []
    ensures x[0].Ch? ==> Expand(x, full) + w != "" && (Expand(x, full) + w)[0] == x[0].c
    ensures x[0].Ph? && Sharp(full, x[0].n) ==> StartsWithMark(Expand(x, full) + w)
  {
    var meant := Meaning(full)(x[0]);
    assert Expand(x, full) == meant + Expand(x[1..], full);
    if meant != "" { assert (Expand(x, full) + w)[0] == meant[0]; }
  }

  /** A stray at a plain character is replaced by a text that starts with a mark. */
  lemma StrayAtChar(x: seq<Tok>, z: string, n: nat, v: string, full: map<nat, string>, w: string)
    requires x != [] && x[0].Ch? && StrayHere(x[0], Flatten(x[1..]) + z, n) && StartsWithMark(v)
    ensures Parted(ReplaceAll(Flatten(x) + z, Placeholder(n), v), Expand(x, full) + w)
  {
    HeadText(x, z);
    PrefixRest(x[0].c, Flatten(x[1..]) + z, Placeholder(n));
    ShowsUnderscores(n);
    FirstReplaced(Flatten(x) + z, Placeholder(n), v);
    MeantFirst(x, w, full);
  }

  lemma StumpFree(k: nat, left: bool, n: nat, tail: string, i: nat)
    requires k != n && i < |Stump(k, left)| && (left ==> tail != "" && tail[0] == '_')
    ensures !OccursAt(Placeholder(k) + tail, i, Placeholder(n))
  {
    var text := Placeholder(k) + tail;
    CoreIsInner(n);
    if OccursAt(text, i, Placeholder(n)) {
      if i == 0 { SamePlaceholder(k, n, tail); } else { InsidePlaceholder(k, tail, n, i); }
      OccursChar(text, i, Placeholder(n), 2);
      assert false;
    }
  }

  lemma StumpParts(k: nat, left: bool, n: nat, tail: string, rest: string)
    requires tail == (if left then "_" else "") + Core(n) + "__" + rest
    ensures Placeholder(k) + tail == Stump(k, left) + (Placeholder(n) + rest)
  {
    assert "__" + Core(n) + "__" == Placeholder(n) by { assert "__" + "OC_I18N_" == PREFIX; }
  }

  /** A stray within the last underscores of another token leaves a stump. */
  lemma StrayAtStump(k: nat, left: bool, n: nat, tail: string, rest: string, v: string) returns (z': string)
    requires k != n && StartsWithMark(v) && tail == (if left then "_" else "") + Core(n) + "__" + rest
    ensures ReplaceAll(Placeholder(k) + tail, Placeholder(n), v) == z' && Broken(z', k, left)
  {
    var p, head := Placeholder(n), Stump(k, left);
    StumpParts(k, left, n, tail, rest);
    forall i: nat | i < |head| ensures !OccursAt(head + (p + rest), i, p) { StumpFree(k, left, n, tail, i); }
    ReplaceSkips(head, p + rest, p, v);
    ReplaceFirst(p, rest, v);
    z' := head + (v + ReplaceAll(rest, p, v));
    assert z'[..|head|] == head && z'[|head|] == v[0];
  }

  lemma StrayAtToken(k: nat, tail: string, n: nat, v: string) returns (z': string, left: bool)
    requires k != n && Completes(tail, n) && StartsWithMark(v)
    ensures ReplaceAll(Placeholder(k) + tail, Placeholder(n), v) == z' && Broken(z', k, left)
  {
    left := !HasPrefix(tail, Core(n) + "__");
    var mid := (if left then "_" else "") + Core(n) + "__";
    assert tail == mid + tail[|mid|..];
    z' := StrayAtStump(k, left, n, tail, tail[|mid|..], v);
  }

  lemma GuardedTail(full: map<nat, string>, x: seq<Tok>)
    requires Guarded(full, x) && x != []
    ensures Guarded(full, x[1..])
    ensures x[0].Ph? ==> Sharp(full, x[0].n) || StartsPlainMark(x[1..])
  {
    forall i | 0 <= i < |x[1..]| && x[1..][i].Ph? ensures Sharp(full, x[1..][i].n) || StartsPlainMark(x[1..][i + 1..]) {
      assert x[1..][i] == x[i + 1] && x[1..][i + 1..] == x[i + 2..];
    }
  }

  lemma GuardedCons(full: map<nat, string>, t: Tok, x: seq<Tok>)
    requires Guarded(full, x) && (t.Ph? ==> Sharp(full, t.n) || StartsPlainMark(x))
    ensures Guarded(full, [t] + x)
  {
    var all := [t] + x;
    forall i | 0 <= i < |all| && all[i].Ph? ensures Sharp(full, all[i].n) || StartsPlainMark(all[i + 1..]) {
      if i == 0 { assert all[1..] == x; } else { assert all[i] == x[i - 1] && all[i + 1..] == x[i..]; }
    }
  }

  lemma {:induction false} GuardedPrepend(full: map<nat, string>, value: seq<Tok>, x: seq<Tok>)
    requires SharpTokens(full, value) && Guarded(full, x)
    ensures Guarded(full, value + x)
  {
    if value == [] {
      assert value + x == x;
    } else {
      GuardedPrepend(full, value[1..], x);
      GuardedCons(full, value[0], value[1..] + x);
      assert value + x == [value[0]] + (value[1..] + x);
    }
  }

  /** The i-th masked text, if its core is in the source, starts with a mark: a code span or an angle link does. */
  ghost predicate MarkedIfSpelled(text: string, n: nat, value: string) {
    Contains(text, Core(n)) ==> StartsWithMark(value)
  }

  lemma MarkedTail(x: seq<Tok>, full: map<nat, string>, n: nat, value: string)
    requires x != [] && MarkedIfSpelled(Expand(x, full), n, value)
    ensures MarkedIfSpelled(Expand(x[1..], full), n, value)
  {
    var head := Meaning(full)(x[0]);
    assert Expand(x, full) == head + Expand(x[1..], full);
    if Contains(Expand(x[1..], full), Core(n)) {
      assert head + Expand(x[1..], full) + "" == Expand(x, full);
      ContainsMiddle(head, Expand(x[1..], full), "");
      ContainsTrans(Expand(x, full), Expand(x[1..], full), Core(n));
    }
  }

  lemma StrayIsMarked(x: seq<Tok>, z: string, w: string, n: nat, value: string, full: map<nat, string>)
    requires x != [] && StrayHere(x[0], Flatten(x[1..]) + z, n) && SameOrParted(z, w)
    requires MarkedIfSpelled(Expand(x, full), n, value)
    ensures StartsWithMark(value)
  {
    if Parted(z, w) { PartedIsBlunt(z, w); }
    var i := StrayIsSpelled(x, z, n);
    SpelledExpands(x, i, Core(n), full);
  }

  lemma CompletesPlainly(tail: string, n: nat)
    requires Completes(tail, n)
    ensures tail != "" && !IsMark(tail[0])
  {
    CoreIsInner(n);
    assert HasPrefix(tail, Core(n) + "__") ==> tail[0] == tail[..|Core(n)| + 2][0] == 'O';
    assert HasPrefix(tail, "_" + Core(n) + "__") ==> tail[0] == tail[..|Core(n)| + 3][0] == '_';
  }

  /** Another token that the rest completes to a stray is followed by no mark, so it is sharp. */
  lemma StrayIsSharp(x: seq<Tok>, z: string, n: nat, full: map<nat, string>)
    requires x != [] && x[0].Ph? && Guarded(full, x) && Completes(Flatten(x[1..]) + z, n)
    ensures Sharp(full, x[0].n)
  {
    GuardedTail(full, x);
    CompletesPlainly(Flatten(x[1..]) + z, n);
    if x[1..] != [] { FlattenHead(x[1..]); }
  }

  lemma BrokenParts(z: string, k: nat, left: bool, w: string)
    requires Broken(z, k, left) && StartsWithMark(w)
    ensures Parted(z, w)
  {}

  /** The stray at the head of the tokens parts the texts. */
  lemma StrayParts(x: seq<Tok>, z: string, w: string, n: nat, v: string, full: map<nat, string>)
    requires x != [] && Guarded(full, x) && StrayHere(x[0], Flatten(x[1..]) + z, n) && StartsWithMark(v)
    ensures Parted(ReplaceAll(Flatten(x) + z, Placeholder(n), v), Expand(x, full) + w)
  {
    if x[0].Ch? {
      StrayAtChar(x, z, n, v, full, w);
    } else {
      StrayIsSharp(x, z, n, full);
      HeadText(x, z);
      MeantFirst(x, w, full);
      var z', left := StrayAtToken(x[0].n, Flatten(x[1..]) + z, n, v);
      BrokenParts(z', x[0].n, left, Expand(x, full) + w);
    }
  }

  /** What one round of unmasking makes of a state: it either parts the texts, or replaces the tokens. */
  ghost predicate Round(x: seq<Tok>, z: string, w: string, n: nat, value: seq<Tok>, full: map<nat, string>,
                        x': seq<Tok>, z': string, w': string) {
    && Reaches(ReplaceAll(Flatten(x) + z, Placeholder(n), Flatten(value)), Expand(x, full) + w, x', z', w', full)
    && (z != "" || Stray(x, n) <==> z' != "")
    && (z' == "" ==> x' == Subst(x, n, value))
    && (StartsPlainMark(x) ==> StartsPlainMark(x'))
  }

  ghost predicate TokensFrom(x': seq<Tok>, x: seq<Tok>, n: nat, value: seq<Tok>) {
    forall m: nat :: Ph(m) in x' ==> (m != n && Ph(m) in x) || Ph(m) in value
  }

  ghost predicate CanTurn(x: seq<Tok>, z: string, w: string, n: nat, value: seq<Tok>, full: map<nat, string>) {
    && Guarded(full, x) && SameOrParted(z, w)
    && n in full && Expand(value, full) == full[n] && SharpTokens(full, value)
    && MarkedIfSpelled(Expand(x, full), n, Flatten(value))
  }

  lemma CanTurnTail(x: seq<Tok>, z: string, w: string, n: nat, value: seq<Tok>, full: map<nat, string>)
    requires x != [] && CanTurn(x, z, w, n, value, full)
    ensures CanTurn(x[1..], z, w, n, value, full)
  {
    GuardedTail(full, x);
    MarkedTail(x, full, n, Flatten(value));
  }

  lemma TurnNothing(z: string, w: string, n: nat, value: seq<Tok>, full: map<nat, string>) returns (z': string)
    requires CanTurn([], z, w, n, value, full)
    ensures Round([], z, w, n, value, full, [], z', w)
  {
    z' := ReplaceAll(z, Placeholder(n), Flatten(value));
    assert Flatten([]) + z == z && Expand([], full) + w == w && Flatten([]) + z' == z';
    if Parted(z, w) {
      PartedStays(z, w, n, Flatten(value));
      PartedIsBlunt(z, w);
      PartedIsBlunt(z', w);
    }
  }

  lemma Assoc(a: string, b: string, c: string)
    ensures (a + b) + c == a + (b + c)
  {}

  lemma OwnText(x: seq<Tok>, z: string, n: nat, value: seq<Tok>, x1: seq<Tok>, z': string)
    requires x != [] && x[0] == Ph(n)
    requires ReplaceAll(Flatten(x[1..]) + z, Placeholder(n), Flatten(value)) == Flatten(x1) + z'
    ensures ReplaceAll(Flatten(x) + z, Placeholder(n), Flatten(value)) == Flatten(value + x1) + z'
  {
    HeadText(x, z);
    ReplaceFirst(Placeholder(n), Flatten(x[1..]) + z, Flatten(value));
    FlattenConcat(value, x1);
    Assoc(Flatten(value), Flatten(x1), z');
  }

  lemma OwnMeaning(x: seq<Tok>, w: string, n: nat, value: seq<Tok>, full: map<nat, string>, x1: seq<Tok>, w': string)
    requires x != [] && x[0] == Ph(n) && n in full && Expand(value, full) == full[n]
    requires Expand(x[1..], full) + w == Expand(x1, full) + w'
    ensures Expand(x, full) + w == Expand(value + x1, full) + w'
  {
    ExpandHead(x, full);
    ExpandConcat(value, x1, full);
    Assoc(full[n], Expand(x[1..], full), w);
    Assoc(full[n], Expand(x1, full), w');
  }

  lemma ExpandHead(x: seq<Tok>, full: map<nat, string>)
    requires x != []
    ensures Expand(x, full) == Meaning(full)(x[0]) + Expand(x[1..], full)
  {}

  lemma TurnOwn(x: seq<Tok>, z: string, w: string, n: nat, value: seq<Tok>, full: map<nat, string>,
                x1: seq<Tok>, z': string, w': string)
    requires x != [] && x[0] == Ph(n) && CanTurn(x, z, w, n, value, full)
    requires Round(x[1..], z, w, n, value, full, x1, z', w')
    ensures Round(x, z, w, n, value, full, value + x1, z', w')
  {
    OwnText(x, z, n, value, x1, z');
    OwnMeaning(x, w, n, value, full, x1, w');
    GuardedPrepend(full, value, x1);
  }

  lemma SkipText(x: seq<Tok>, z: string, n: nat, v: string, x1: seq<Tok>, z': string)
    requires x != [] && x[0] != Ph(n) && !StrayHere(x[0], Flatten(x[1..]) + z, n)
    requires ReplaceAll(Flatten(x[1..]) + z, Placeholder(n), v) == Flatten(x1) + z'
    ensures ReplaceAll(Flatten(x) + z, Placeholder(n), v) == Flatten([x[0]] + x1) + z'
  {
    HeadText(x, z);
    SkipToken(x[0], Flatten(x[1..]) + z, n, v);
    HeadText([x[0]] + x1, z');
    assert ([x[0]] + x1)[1..] == x1;
  }

  lemma SkipMeaning(x: seq<Tok>, w: string, full: map<nat, string>, x1: seq<Tok>, w': string)
    requires x != [] && Expand(x[1..], full) + w == Expand(x1, full) + w'
    ensures Expand(x, full) + w == Expand([x[0]] + x1, full) + w'
  {
    var all := [x[0]] + x1;
    assert all[1..] == x1;
    ExpandHead(x, full);
    ExpandHead(all, full);
    Assoc(Meaning(full)(x[0]), Expand(x[1..], full), w);
    Assoc(Meaning(full)(x[0]), Expand(x1, full), w');
  }

  lemma TurnSkip(x: seq<Tok>, z: string, w: string, n: nat, value: seq<Tok>, full: map<nat, string>,
                 x1: seq<Tok>, z': string, w': string)
    requires x != [] && x[0] != Ph(n) && CanTurn(x, z, w, n, value, full) && !StrayHere(x[0], Flatten(x[1..]) + z, n)
    requires Round(x[1..], z, w, n, value, full, x1, z', w')
    ensures Round(x, z, w, n, value, full, [x[0]] + x1, z', w')
  {
    SkipText(x, z, n, Flatten(value), x1, z');
    SkipMeaning(x, w, full, x1, w');
    GuardedTail(full, x);
    GuardedCons(full, x[0], x1);
    assert z == "" ==> Flatten(x[1..]) + z == Flatten(x[1..]);
  }

  lemma TurnStray(x: seq<Tok>, z: string, w: string, n: nat, value: seq<Tok>, full: map<nat, string>)
    returns (z': string)
    requires x != [] && CanTurn(x, z, w, n, value, full) && StrayHere(x[0], Flatten(x[1..]) + z, n)
    ensures Round(x, z, w, n, value, full, [], z', Expand(x, full) + w)
  {
    StrayIsMarked(x, z, w, n, Flatten(value), full);
    z' := ReplaceAll(Flatten(x) + z, Placeholder(n), Flatten(value));
    StrayParts(x, z, w, n, Flatten(value), full);
    PartedIsBlunt(z', Expand(x, full) + w);
    assert Flatten([]) + z' == z' && Expand([], full) + (Expand(x, full) + w) == Expand(x, full) + w;
    assert z == "" ==> Flatten(x[1..]) + z == Flatten(x[1..]);
    NoStrayAtMark(x, z, n);
  }

  lemma NoStrayAtMark(x: seq<Tok>, z: string, n: nat)
    requires x != [] && StrayHere(x[0], Flatten(x[1..]) + z, n)
    ensures !StartsPlainMark(x)
  {
    if x[0].Ch? {
      var text := [x[0].c] + (Flatten(x[1..]) + z);
      assert x[0].c == text[..|Placeholder(n)|][0] == Placeholder(n)[0] == '_';
    }
  }

  /** One round, from any such state. */
  lemma {:induction false} Turn(x: seq<Tok>, z: string, w: string, n: nat, value: seq<Tok>, full: map<nat, string>)
    returns (x': seq<Tok>, z': string, w': string)
    requires CanTurn(x, z, w, n, value, full)
    ensures Round(x, z, w, n, value, full, x', z', w') && TokensFrom(x', x, n, value)
    decreases |x|
  {
    if x == [] {
      x', w' := [], w;
      z' := TurnNothing(z, w, n, value, full);
    } else if StrayHere(x[0], Flatten(x[1..]) + z, n) {
      x', w' := [], Expand(x, full) + w;
      z' := TurnStray(x, z, w, n, value, full);
    } else {
      CanTurnTail(x, z, w, n, value, full);
      var x1;
      x1, z', w' := Turn(x[1..], z, w, n, value, full);
      if x[0] == Ph(n) {
        x' := value + x1;
        TurnOwn(x, z, w, n, value, full, x1, z', w');
      } else {
        x' := [x[0]] + x1;
        TurnSkip(x, z, w, n, value, full, x1, z', w');
      }
    }
  }

  // ---------------------------------------------------------------- all rounds

  /** The masked texts whose cores the text spells start with a mark. */
  ghost predicate MarkedCores(text: string, l: Layout) {
    forall k :: 0 <= k < |l.names| && k < |l.values| ==> MarkedIfSpelled(text, l.names[k], Flatten(l.values[k]))
  }

  /** Tokens still to be replaced, and others that are sharp. */
  ghost predicate LeftOver(x: seq<Tok>, l: Layout, k: nat) {
    forall m: nat :: Ph(m) in x ==> Sharp(l.full, m) || (exists i :: k <= i < |l.names| && l.names[i] == m)
  }

  /**
   * The state after k rounds: if they were clean, the text is laid out as `filled`; otherwise it has parted from
   * the source.
   */
  ghost predicate StateAt(source: string, l: Layout, k: nat, text: string, x: seq<Tok>, z: string, w: string,
                          clean: bool, filled: seq<Tok>)
  {
    && Reaches(text, source, x, z, w, l.full) && LeftOver(x, l, k)
    && (z == "" <==> clean) && (clean ==> x == filled)
  }

  /** No stray in the first k rounds. */
  ghost predicate CleanTo(ts: seq<Tok>, l: Layout, k: nat)
    requires k <= |l.names| == |l.values|
  {
    forall i :: 0 <= i < k ==> !Stray(Filled(ts, l, i), l.names[i])
  }

  lemma MarkedPart(a: string, b: string, n: nat, value: string)
    requires MarkedIfSpelled(a + b, n, value)
    ensures MarkedIfSpelled(a, n, value)
  {
    if Contains(a, Core(n)) {
      assert "" + a + b == a + b;
      ContainsMiddle("", a, b);
      ContainsTrans(a + b, a, Core(n));
    }
  }

  lemma NextRound(source: string, l: Layout, k: nat, text: string, next: string, x: seq<Tok>, z: string, w: string,
                  clean: bool, filled: seq<Tok>)
    returns (x': seq<Tok>, z': string, w': string)
    requires 0 < k <= |l.names| == |l.values| && StateAt(source, l, k - 1, text, x, z, w, clean, filled)
    requires next == ReplaceAll(text, Placeholder(l.names[k - 1]), Flatten(l.values[k - 1]))
    requires Sound(l) && SharpValues(l) && MarkedCores(source, l)
    ensures StateAt(source, l, k, next, x', z', w', clean && !Stray(filled, l.names[k - 1]),
                    Subst(filled, l.names[k - 1], l.values[k - 1]))
  {
    var n, value := l.names[k - 1], l.values[k - 1];
    assert SoundAt(l, k - 1) && SharpTokens(l.full, value);
    MarkedPart(Expand(x, l.full), w, n, Flatten(value));
    x', z', w' := Turn(x, z, w, n, value, l.full);
    NextLeftOver(x, x', l, k - 1);
  }

  lemma NextLeftOver(x: seq<Tok>, x': seq<Tok>, l: Layout, k: nat)
    requires k < |l.names| == |l.values| && LeftOver(x, l, k) && SharpValues(l)
           && TokensFrom(x', x, l.names[k], l.values[k])
    ensures LeftOver(x', l, k + 1)
  {
    forall m: nat | Ph(m) in x' ensures Sharp(l.full, m) || (exists i :: k + 1 <= i < |l.names| && l.names[i] == m) {
      if Ph(m) in l.values[k] {
        assert SharpTokens(l.full, l.values[k]);
      } else if !Sharp(l.full, m) {
        var i :| k <= i < |l.names| && l.names[i] == m;
        assert i != k;
      }
    }
  }

  lemma CleanNext(ts: seq<Tok>, l: Layout, k: nat)
    requires 0 < k <= |l.names| == |l.values|
    ensures CleanTo(ts, l, k) <==> CleanTo(ts, l, k - 1) && !Stray(Filled(ts, l, k - 1), l.names[k - 1])
  {}

  lemma OneRound(source: string, start: string, l: Layout, w: Work, hits: set<string>, k: nat,
                 x: seq<Tok>, z: string, y: string, clean: bool, filled: seq<Tok>)
    returns (x': seq<Tok>, z': string, y': string)
    requires Sound(l) && Represents(l, w, hits) && 0 < k <= |l.names| && "" !in w.placeholders
    requires SharpValues(l) && MarkedCores(source, l)
    requires StateAt(source, l, k - 1, Unmask(start, w.placeholders[..k - 1], w.mapping), x, z, y, clean, filled)
    ensures StateAt(source, l, k, Unmask(start, w.placeholders[..k], w.mapping), x', z', y',
                    clean && !Stray(filled, l.names[k - 1]), Subst(filled, l.names[k - 1], l.values[k - 1]))
  {
    UnmaskRound(start, l, w, hits, k);
    x', z', y' := NextRound(source, l, k, Unmask(start, w.placeholders[..k - 1], w.mapping),
                            Unmask(start, w.placeholders[..k], w.mapping), x, z, y, clean, filled);
  }

  lemma {:induction false} Rounds(ts: seq<Tok>, source: string, start: string, l: Layout, w: Work, hits: set<string>,
                                  k: nat)
    returns (x: seq<Tok>, z: string, y: string)
    requires Sound(l) && Represents(l, w, hits) && k <= |l.names| && "" !in w.placeholders
    requires SharpValues(l) && MarkedCores(source, l)
    requires source == Expand(ts, l.full) && start == Flatten(ts) && Guarded(l.full, ts) && LeftOver(ts, l, 0)
    ensures StateAt(source, l, k, Unmask(start, w.placeholders[..k], w.mapping), x, z, y,
                    CleanTo(ts, l, k), Filled(ts, l, k))
  {
    if k == 0 {
      x, z, y := ts, "", "";
      assert start + "" == start && source + "" == source;
    } else {
      x, z, y := Rounds(ts, source, start, l, w, hits, k - 1);
      CleanNext(ts, l, k);
      x, z, y := OneRound(source, start, l, w, hits, k, x, z, y, CleanTo(ts, l, k - 1), Filled(ts, l, k - 1));
    }
  }

  lemma SharpHeadDiffers(x: seq<Tok>, z: string, w: string, full: map<nat, string>)
    requires x != [] && x[0].Ph? && Sharp(full, x[0].n)
    ensures Flatten(x) + z != Expand(x, full) + w
  {
    HeadText(x, z);
    ShowsUnderscores(x[0].n);
    MeantFirst(x, w, full);
    assert (Flatten(x) + z)[0] == '_';
  }

  lemma SameTail(x: seq<Tok>, z: string, w: string, full: map<nat, string>)
    requires x != [] && x[0].Ch? && Flatten(x) + z == Expand(x, full) + w
    ensures Flatten(x[1..]) + z == Expand(x[1..], full) + w
  {
    HeadText(x, z);
    ExpandHead(x, full);
    Assoc([x[0].c], Expand(x[1..], full), w);
    var a, b := Flatten(x[1..]) + z, Expand(x[1..], full) + w;
    assert ([x[0].c] + a)[1..] == a && ([x[0].c] + b)[1..] == b;
  }

  /** Texts that have parted, or that still show a sharp placeholder, are different. */
  lemma {:induction false} PartedDiffer(x: seq<Tok>, z: string, w: string, full: map<nat, string>)
    requires SameOrParted(z, w) && Flatten(x) + z == Expand(x, full) + w
    requires forall m: nat :: Ph(m) in x ==> Sharp(full, m)
    ensures z == "" && forall t :: t in x ==> t.Ch?
  {
    if x == [] {
      assert Flatten(x) + z == z && Expand(x, full) + w == w;
      if Parted(z, w) { PartedAtOnce(z, w); }
    } else {
      if x[0].Ph? { SharpHeadDiffers(x, z, w, full); }
      SameTail(x, z, w, full);
      PartedDiffer(x[1..], z, w, full);
      assert forall t :: t in x ==> t == x[0] || t in x[1..];
    }
  }

  lemma PartedAtOnce(z: string, w: string)
    requires Parted(z, w)
    ensures z != w
  {
    if !IsMark(z[0]) {
      var a: nat, left: bool :| Broken(z, a, left);
      assert z[0] == z[..|Stump(a, left)|][0] == '_';
    }
  }

  /**
   For a text in which a spelled core belongs to a masked text that starts with a mark, unmasking gives back
   what it stands for exactly if it is seamless and no masked part swallowed another.
   */
  lemma RestoredIff(work: seq<Tok>, l: Layout, source: string, w: Work, hits: set<string>)
    requires Lays(l, work, source) && Represents(l, w, hits) && SharpValues(l) && Guarded(l.full, work)
    requires MarkedCores(source, l)
    ensures "" !in w.placeholders
    ensures Unmask(Flatten(work), w.placeholders, w.mapping) == source <==> Seamless(work, l) && !Swallowed(l)
  {
    PlaceholdersNotEmpty(l, w, hits);
    var k := |l.names|;
    assert w.placeholders[..k] == w.placeholders;
    assert LeftOver(work, l, 0) by {
      forall m: nat | Ph(m) in work ensures exists i :: 0 <= i < |l.names| && l.names[i] == m { assert m in l.names; }
    }
    var x, z, y := Rounds(work, source, Flatten(work), l, w, hits, k);
    if Seamless(work, l) && !Swallowed(l) { UnmaskRestores(work, l, w, hits); }
    if Unmask(Flatten(work), w.placeholders, w.mapping) == source {
      PartedDiffer(x, z, y, l.full);
      if Swallowed(l) { var n := SwallowedStays(l, work, source); }
    }
  }
}
