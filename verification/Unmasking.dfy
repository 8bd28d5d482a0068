/** What validation and unmasking do to a layout, and the exact condition for giving the text back. */
module Unmasking {
  import opened Text
  import opened Masking
  import opened MaskLayout

  // ---------------------------------------------------------------- finding placeholders

  /** The tokens begin with the plain characters of `word`. */
  predicate Spells(ts: seq<Tok>, word: string) {
    |word| <= |ts| && forall i :: 0 <= i < |word| ==> ts[i] == Ch(word[i])
  }

  /** No plain run of the layout spells the core of placeholder n. */
  ghost predicate Unspelled(ts: seq<Tok>, n: nat) {
    forall i :: 0 <= i <= |ts| ==> !Spells(ts[i..], Core(n))
  }

  lemma UnspelledTail(ts: seq<Tok>, n: nat)
    requires Unspelled(ts, n) && ts != []
    ensures Unspelled(ts[1..], n) && !Spells(ts, Core(n))
  {
    assert ts[0..] == ts;
    forall i | 0 <= i <= |ts[1..]| ensures !Spells(ts[1..][i..], Core(n)) {
      assert ts[1..][i..] == ts[i + 1..];
    }
  }

  /** A word that no placeholder ends in or starts with: single underscores, not at the end, and no marks. */
  predicate IsInnerWord(word: string) { forall i: nat :: i < |word| ==> IsInnerAt(word, i) }

  predicate IsInnerAt(word: string, i: nat)
    requires i < |word|
  {
    !IsMark(word[i]) && (word[i] == '_' ==> i + 1 < |word| && word[i + 1] != '_')
  }

  lemma CoreIsInner(n: nat)
    ensures IsInnerWord(Core(n)) && |Core(n)| >= 9 && Core(n)[0] == 'O'
  {
    var d := Decimal(n);
    assert forall i :: 8 <= i < |Core(n)| ==> Core(n)[i] == d[i - 8] && IsDigit(Core(n)[i]);
  }

  lemma ShowsUnderscores(n: nat)
    ensures |Placeholder(n)| >= 13 && Placeholder(n)[0] == '_' && Placeholder(n)[1] == '_'
    ensures forall i :: 3 <= i < |Placeholder(n)| ==> Placeholder(n)[i] != 'O'
    ensures Placeholder(n)[|Placeholder(n)| - 1] == '_' && Placeholder(n)[|Placeholder(n)| - 2] == '_'
  {
    var d, p := Decimal(n), Placeholder(n);
    forall i | 3 <= i < |p| ensures p[i] != 'O' {
      if 10 <= i < 10 + |d| { assert p[i] == d[i - 10]; }
    }
  }

  lemma FlattenHead(ts: seq<Tok>)
    requires ts != []
    ensures Flatten(ts) == Show(ts[0]) + Flatten(ts[1..]) && Show(ts[0]) != ""
    ensures ts[0].Ch? ==> Show(ts[0]) == [ts[0].c]
    ensures ts[0].Ph? ==> Show(ts[0]) == Placeholder(ts[0].n)
  {}

  /** What cannot continue such a word. */
  predicate Blunt(z: string) { z == "" || IsMark(z[0]) || HasPrefix(z, "__") }

  lemma HeadText(ts: seq<Tok>, z: string)
    requires ts != []
    ensures Flatten(ts) + z == Show(ts[0]) + (Flatten(ts[1..]) + z)
  {
    FlattenHead(ts);
  }

  lemma PrefixRest(c: char, text: string, word: string)
    requires word != "" && HasPrefix([c] + text, word)
    ensures c == word[0] && HasPrefix(text, word[1..])
  {
    assert ([c] + text)[0] == ([c] + text)[..|word|][0];
    assert ([c] + text)[1..] == text && ([c] + text)[..|word|][1..] == text[..|word| - 1];
  }

  lemma NotAtToken(n: nat, text: string, word: string)
    requires HasPrefix(Placeholder(n) + text, word) && word != ""
    ensures word[0] == '_' && (|word| > 1 ==> word[1] == '_')
  {
    ShowsUnderscores(n);
    var all := Placeholder(n) + text;
    assert all[0] == all[..|word|][0] && (|word| > 1 ==> all[1] == all[..|word|][1]);
  }

  /** Such a word can only be read off plain characters. */
  lemma {:induction false} PrefixSpells(ts: seq<Tok>, z: string, word: string)
    requires HasPrefix(Flatten(ts) + z, word) && IsInnerWord(word) && Blunt(z)
    ensures Spells(ts, word)
  {
    if word != "" {
      assert IsInnerAt(word, 0);
      if ts == [] {
        assert Flatten(ts) + z == z;
        BluntStops(z, word);
        assert false;
      }
      HeadText(ts, z);
      var rest := Flatten(ts[1..]) + z;
      if ts[0].Ph? {
        NotAtToken(ts[0].n, rest, word);
        assert false;
      }
      PrefixRest(ts[0].c, rest, word);
      InnerTail(word);
      PrefixSpells(ts[1..], z, word[1..]);
      assert forall i :: 0 < i < |word| ==> ts[i] == ts[1..][i - 1];
    }
  }

  lemma BluntStops(z: string, word: string)
    requires Blunt(z) && IsInnerWord(word) && word != ""
    ensures !HasPrefix(z, word)
  {
    assert IsInnerAt(word, 0);
  }

  lemma InnerTail(word: string)
    requires IsInnerWord(word) && word != ""
    ensures IsInnerWord(word[1..])
  {
    forall i: nat | i < |word[1..]| ensures IsInnerAt(word[1..], i) { assert IsInnerAt(word, i + 1); }
  }

  lemma HalfPlaceholder(ts: seq<Tok>, z: string, n: nat)
    requires HasPrefix(Flatten(ts) + z, "_" + Core(n)) && Blunt(z)
    ensures ts != [] && Spells(ts[1..], Core(n))
  {
    var word := "_" + Core(n);
    CoreIsInner(n);
    assert word[0] == '_' && word[1] == 'O' && word[1..] == Core(n);
    if ts == [] {
      assert Flatten(ts) + z == z;
      HalfStops(z, word);
      assert false;
    }
    HeadText(ts, z);
    var rest := Flatten(ts[1..]) + z;
    if ts[0].Ph? {
      NotAtToken(ts[0].n, rest, word);
      assert false;
    }
    PrefixRest(ts[0].c, rest, word);
    PrefixSpells(ts[1..], z, Core(n));
  }

  lemma HalfStops(z: string, word: string)
    requires Blunt(z) && |word| > 1 && word[0] == '_' && word[1] != '_'
    ensures !HasPrefix(z, word)
  {}

  lemma DigitsUnderscore(a: string, b: string, x: string, y: string)
    requires a + "_" + x == b + "_" + y
    requires forall i :: 0 <= i < |a| ==> IsDigit(a[i])
    requires forall i :: 0 <= i < |b| ==> IsDigit(b[i])
    ensures a == b
  {
    var t := a + "_" + x;
    assert t[|a|] == '_' && (b + "_" + y)[|b|] == '_';
    assert forall i :: 0 <= i < |b| ==> t[i] == b[i];
    assert forall i :: 0 <= i < |a| ==> t[i] == a[i];
    assert |a| == |b|;
    assert a == t[..|a|] == b;
  }

  lemma SamePlaceholder(m: nat, n: nat, tail: string)
    requires HasPrefix(Placeholder(m) + tail, Placeholder(n))
    ensures m == n
  {
    var text := Placeholder(m) + tail;
    var x := text[|Placeholder(n)|..];
    assert text == Placeholder(n) + x;
    assert text[|PREFIX|..] == Decimal(n) + "_" + ("_" + x);
    assert text[|PREFIX|..] == Decimal(m) + "_" + ("_" + tail);
    DigitsUnderscore(Decimal(m), Decimal(n), "_" + tail, "_" + x);
    DecimalInjective(m, n);
  }

  lemma ShorterPrefix(text: string, a: string, b: string)
    requires HasPrefix(text, a + b)
    ensures HasPrefix(text, a)
  {
    assert text[..|a|] == text[..|a + b|][..|a|] == (a + b)[..|a|] == a;
  }

  lemma InsidePlaceholder(m: nat, tail: string, n: nat, i: nat)
    requires 0 < i < |Placeholder(m)| && OccursAt(Placeholder(m) + tail, i, Placeholder(n))
    ensures i >= |Placeholder(m)| - 2
  {
    ShowsUnderscores(m);
    CoreIsInner(n);
    var text, p := Placeholder(m) + tail, Placeholder(n);
    assert text[i..i + |p|][2] == text[i + 2] == p[2] == 'O';
  }

  /** The text goes on with what makes placeholder n of one or two leading underscores. */
  predicate Completes(tail: string, n: nat) { HasPrefix(tail, Core(n) + "__") || HasPrefix(tail, "_" + Core(n) + "__") }

  lemma SeamCases(head: string, tail: string, n: nat, i: nat)
    requires OccursAt(head + tail, i, Placeholder(n)) && i < |head| && |head| - 2 <= i
    ensures Completes(tail, n)
  {
    CoreIsInner(n);
    if i == |head| - 1 {
      assert Placeholder(n)[1..] == "_" + Core(n) + "__";
    } else {
      assert Placeholder(n)[2..] == Core(n) + "__";
    }
  }

  /**
   The text of placeholder n starts at t, followed by `tail`, without being the token of n: it starts at
   a plain character, or with the last underscores of another token.
   */
  predicate StrayHere(t: Tok, tail: string, n: nat) {
    if t.Ch? then HasPrefix([t.c] + tail, Placeholder(n)) else t.n != n && Completes(tail, n)
  }

  /** The text of placeholder n starts somewhere else than at its tokens. */
  predicate Stray(ts: seq<Tok>, n: nat) {
    ts != [] && (StrayHere(ts[0], Flatten(ts[1..]), n) || Stray(ts[1..], n))
  }

  /** Without a stray, the text of a placeholder does not start within another token. */
  lemma NoOccurrenceHere(t: Tok, tail: string, n: nat, i: nat)
    requires t != Ph(n) && i < |Show(t)| && !StrayHere(t, tail, n)
    ensures !OccursAt(Show(t) + tail, i, Placeholder(n))
  {
    if OccursAt(Show(t) + tail, i, Placeholder(n)) {
      if t.Ph? {
        if i == 0 { SamePlaceholder(t.n, n, tail); } else { InsidePlaceholder(t.n, tail, n, i); }
        SeamCases(Show(t), tail, n, i);
      }
    }
  }

  lemma StrayPrefix(t: Tok, tail: string, n: nat)
    requires StrayHere(t, tail, n)
    ensures HasPrefix(tail, "_" + Core(n)) || (t.Ph? && HasPrefix(tail, Core(n)))
  {
    if t.Ch? {
      assert Placeholder(n)[1..] == ("_" + Core(n)) + "__";
      PrefixRest(t.c, tail, Placeholder(n));
      ShorterPrefix(tail, "_" + Core(n), "__");
    } else if HasPrefix(tail, Core(n) + "__") {
      ShorterPrefix(tail, Core(n), "__");
    } else {
      ShorterPrefix(tail, "_" + Core(n), "__");
    }
  }

  /** A stray placeholder has its core spelled in plain characters. */
  lemma StrayIsSpelled(ts: seq<Tok>, z: string, n: nat) returns (i: nat)
    requires ts != [] && StrayHere(ts[0], Flatten(ts[1..]) + z, n) && Blunt(z)
    ensures 0 < i <= |ts| && Spells(ts[i..], Core(n))
  {
    CoreIsInner(n);
    StrayPrefix(ts[0], Flatten(ts[1..]) + z, n);
    if HasPrefix(Flatten(ts[1..]) + z, "_" + Core(n)) {
      HalfPlaceholder(ts[1..], z, n);
      i := 2;
      assert ts[1..][1..] == ts[2..];
    } else {
      PrefixSpells(ts[1..], z, Core(n));
      i := 1;
    }
  }

  lemma {:induction false} UnspelledIsNotStray(ts: seq<Tok>, n: nat)
    requires Unspelled(ts, n)
    ensures !Stray(ts, n)
  {
    if ts != [] {
      UnspelledTail(ts, n);
      UnspelledIsNotStray(ts[1..], n);
      assert Flatten(ts[1..]) + "" == Flatten(ts[1..]);
      if StrayHere(ts[0], Flatten(ts[1..]), n) { var i := StrayIsSpelled(ts, "", n); }
    }
  }

  lemma OccursIfToken(ts: seq<Tok>, k: nat)
    requires k < |ts| && ts[k].Ph?
    ensures Contains(Flatten(ts), Placeholder(ts[k].n))
  {
    var a, b := ts[..k], ts[k + 1..];
    assert ts == a + [ts[k]] + b;
    FlattenConcat(a + [ts[k]], b);
    FlattenConcat(a, [ts[k]]);
    RenderOne(Show, ts[k]);
    ContainsMiddle(Flatten(a), Placeholder(ts[k].n), Flatten(b));
  }

  lemma OccursBeyond(head: string, tail: string, i: nat, p: string)
    requires |head| <= i && OccursAt(head + tail, i, p)
    ensures OccursAt(tail, i - |head|, p)
  {
    assert tail[i - |head|..i - |head| + |p|] == (head + tail)[i..i + |p|];
  }

  lemma {:induction false} TokenIfOccurs(ts: seq<Tok>, n: nat, i: nat)
    requires !Stray(ts, n) && OccursAt(Flatten(ts), i, Placeholder(n))
    ensures Ph(n) in ts
  {
    FlattenHead(ts);
    if ts[0] != Ph(n) {
      if i < |Show(ts[0])| {
        NoOccurrenceHere(ts[0], Flatten(ts[1..]), n, i);
      } else {
        OccursBeyond(Show(ts[0]), Flatten(ts[1..]), i, Placeholder(n));
        TokenIfOccurs(ts[1..], n, i - |Show(ts[0])|);
      }
    }
  }

  /** Where there is no stray, a placeholder's text occurs exactly if its token does. */
  lemma OccursIffToken(ts: seq<Tok>, n: nat)
    requires !Stray(ts, n)
    ensures Contains(Flatten(ts), Placeholder(n)) <==> Ph(n) in ts
  {
    if Ph(n) in ts {
      var k :| 0 <= k < |ts| && ts[k] == Ph(n);
      OccursIfToken(ts, k);
    }
    if i: nat :| OccursAt(Flatten(ts), i, Placeholder(n)) {
      TokenIfOccurs(ts, n, i);
    }
  }

  // ---------------------------------------------------------------- replacing placeholders

  /** Every token of placeholder n replaced by `value`. */
  function Subst(ts: seq<Tok>, n: nat, value: seq<Tok>): seq<Tok> {
    if ts == [] then [] else (if ts[0] == Ph(n) then value else [ts[0]]) + Subst(ts[1..], n, value)
  }

  lemma {:induction false} SubstMember(ts: seq<Tok>, n: nat, value: seq<Tok>, t: Tok)
    ensures t in Subst(ts, n, value) <==> (t != Ph(n) && t in ts) || (Ph(n) in ts && t in value)
  {
    if ts != [] {
      SubstMember(ts[1..], n, value, t);
      assert t in ts <==> t == ts[0] || t in ts[1..];
      assert Ph(n) in ts <==> Ph(n) == ts[0] || Ph(n) in ts[1..];
    }
  }

  lemma {:induction false} SubstExpands(ts: seq<Tok>, n: nat, value: seq<Tok>, full: map<nat, string>)
    requires n in full && Expand(value, full) == full[n]
    ensures Expand(Subst(ts, n, value), full) == Expand(ts, full)
  {
    if ts != [] {
      SubstExpands(ts[1..], n, value, full);
      ExpandConcat(if ts[0] == Ph(n) then value else [ts[0]], Subst(ts[1..], n, value), full);
      RenderOne(Meaning(full), ts[0]);
    }
  }

  lemma ReplaceStep(text: string, part: string, with: string)
    requires part != "" && text != "" && !OccursAt(text, 0, part)
    ensures ReplaceAll(text, part, with) == [text[0]] + ReplaceAll(text[1..], part, with)
  {}

  ghost predicate FreeUpTo(text: string, q: nat, part: string) {
    forall i: nat :: i < q ==> !OccursAt(text, i, part)
  }

  lemma FreeTail(text: string, q: nat, part: string)
    requires text != "" && q > 0 && FreeUpTo(text, q, part)
    ensures FreeUpTo(text[1..], q - 1, part)
  {
    forall i: nat | i < q - 1 ensures !OccursAt(text[1..], i, part) {
      if OccursAt(text[1..], i, part) { TailOccurs(text, i, part); }
    }
  }

  /** Nothing to replace in the first q characters. */
  lemma {:induction false} ReplaceSkips(head: string, tail: string, part: string, with: string)
    requires part != "" && FreeUpTo(head + tail, |head|, part)
    ensures ReplaceAll(head + tail, part, with) == head + ReplaceAll(tail, part, with)
  {
    if head == "" {
      assert head + tail == tail;
    } else {
      assert (head + tail)[1..] == head[1..] + tail;
      FreeTail(head + tail, |head|, part);
      ReplaceSkips(head[1..], tail, part, with);
      ReplaceStep(head + tail, part, with);
      var rest := ReplaceAll(tail, part, with);
      assert [head[0]] + (head[1..] + rest) == head + rest;
    }
  }

  lemma ReplaceFirst(part: string, tail: string, with: string)
    requires part != ""
    ensures ReplaceAll(part + tail, part, with) == with + ReplaceAll(tail, part, with)
  {
    assert (part + tail)[..|part|] == part && (part + tail)[|part|..] == tail;
  }

  /** Where there is no stray, replacing a placeholder's text is replacing its tokens. */
  lemma {:induction false} ReplaceIsSubst(ts: seq<Tok>, n: nat, value: seq<Tok>)
    requires !Stray(ts, n)
    ensures ReplaceAll(Flatten(ts), Placeholder(n), Flatten(value)) == Flatten(Subst(ts, n, value))
  {
    if ts != [] {
      var p, v, tail := Placeholder(n), Flatten(value), Flatten(ts[1..]);
      FlattenHead(ts);
      ReplaceIsSubst(ts[1..], n, value);
      if ts[0] == Ph(n) {
        ReplaceFirst(p, tail, v);
        FlattenConcat(value, Subst(ts[1..], n, value));
      } else {
        SkipToken(ts[0], tail, n, v);
        FlattenConcat([ts[0]], Subst(ts[1..], n, value));
        RenderOne(Show, ts[0]);
      }
    }
  }

  lemma SkipToken(t: Tok, tail: string, n: nat, v: string)
    requires t != Ph(n) && !StrayHere(t, tail, n)
    ensures ReplaceAll(Show(t) + tail, Placeholder(n), v) == Show(t) + ReplaceAll(tail, Placeholder(n), v)
  {
    forall i: nat | i < |Show(t)| ensures !OccursAt(Show(t) + tail, i, Placeholder(n)) {
      NoOccurrenceHere(t, tail, n, i);
    }
    ReplaceSkips(Show(t), tail, Placeholder(n), v);
  }

  // ---------------------------------------------------------------- unmasking

  /** The text contains the core of none of the allocated placeholders. */
  ghost predicate NoCores(text: string, l: Layout) {
    forall n: nat :: n in l.names ==> !Contains(text, Core(n))
  }

  /** Plain runs survive expansion. */
  lemma SpelledExpands(ts: seq<Tok>, i: nat, word: string, full: map<nat, string>)
    requires i <= |ts| && Spells(ts[i..], word)
    ensures Contains(Expand(ts, full), word)
  {
    var a, b, c := ts[..i], ts[i..][..|word|], ts[i..][|word|..];
    assert ts == a + b + c;
    ExpandConcat(a + b, c, full);
    ExpandConcat(a, b, full);
    assert b == Chars(word);
    CharsMeaning(word, full);
    ContainsMiddle(Expand(a, full), word, Expand(c, full));
  }

  lemma NoCoresUnspelled(ts: seq<Tok>, l: Layout, n: nat)
    requires NoCores(Expand(ts, l.full), l) && n in l.names
    ensures Unspelled(ts, n)
  {
    forall i | 0 <= i <= |ts| ensures !Spells(ts[i..], Core(n)) {
      if Spells(ts[i..], Core(n)) { SpelledExpands(ts, i, Core(n), l.full); }
    }
  }

  /** The layout after the first k replacements of unmasking. */
  function Filled(ts: seq<Tok>, l: Layout, k: nat): seq<Tok>
    requires k <= |l.names| == |l.values|
  {
    if k == 0 then ts else Subst(Filled(ts, l, k - 1), l.names[k - 1], l.values[k - 1])
  }

  lemma {:induction false} FilledExpands(ts: seq<Tok>, l: Layout, k: nat)
    requires Sound(l) && k <= |l.names|
    ensures Expand(Filled(ts, l, k), l.full) == Expand(ts, l.full)
  {
    if k > 0 {
      FilledExpands(ts, l, k - 1);
      assert SoundAt(l, k - 1);
      SubstExpands(Filled(ts, l, k - 1), l.names[k - 1], l.values[k - 1], l.full);
    }
  }

  /** At no round of unmasking is the placeholder to be replaced read anywhere but at its tokens. */
  predicate Seamless(ts: seq<Tok>, l: Layout)
    requires |l.names| == |l.values|
  {
    forall k :: 0 <= k < |l.names| ==> !Stray(Filled(ts, l, k), l.names[k])
  }

  /** A text without cores is seamless. */
  lemma NoCoresSeamless(ts: seq<Tok>, l: Layout)
    requires Sound(l) && NoCores(Expand(ts, l.full), l)
    ensures Seamless(ts, l)
  {
    forall k | 0 <= k < |l.names| ensures !Stray(Filled(ts, l, k), l.names[k]) {
      FilledExpands(ts, l, k);
      NoCoresUnspelled(Filled(ts, l, k), l, l.names[k]);
      UnspelledIsNotStray(Filled(ts, l, k), l.names[k]);
    }
  }

  /** What the i-th placeholder stands for. */
  lemma StoredAt(l: Layout, w: Work, hits: set<string>, i: nat)
    requires Represents(l, w, hits) && i < |l.names|
    ensures l.names[i] in l.names && w.placeholders[i] in w.placeholders
    ensures w.placeholders[i] == Placeholder(l.names[i]) && w.placeholders[i] in w.mapping
    ensures w.mapping[w.placeholders[i]] == Flatten(l.values[i])
    ensures 900000 <= l.names[i] && w.placeholders[i] !in hits
  {
    assert RepresentsAt(l, w, hits, i);
  }

  lemma PlaceholdersNotEmpty(l: Layout, w: Work, hits: set<string>)
    requires Represents(l, w, hits)
    ensures "" !in w.placeholders
  {
    forall i | 0 <= i < |w.placeholders| ensures w.placeholders[i] != "" {
      StoredAt(l, w, hits, i);
      ShowsUnderscores(l.names[i]);
    }
  }

  lemma UnmaskLast(text: string, placeholders: seq<string>, mapping: map<string, string>, k: nat)
    requires 0 < k <= |placeholders| && "" !in placeholders && placeholders[k - 1] in mapping
    ensures Unmask(text, placeholders[..k], mapping)
         == ReplaceAll(Unmask(text, placeholders[..k - 1], mapping), placeholders[k - 1], mapping[placeholders[k - 1]])
  {
    assert placeholders[..k][..k - 1] == placeholders[..k - 1];
  }

  /** One more round of unmasking, in terms of the layout. */
  lemma UnmaskRound(text: string, l: Layout, w: Work, hits: set<string>, k: nat)
    requires Represents(l, w, hits) && 0 < k <= |l.names| && "" !in w.placeholders
    ensures Unmask(text, w.placeholders[..k], w.mapping)
         == ReplaceAll(Unmask(text, w.placeholders[..k - 1], w.mapping), Placeholder(l.names[k - 1]),
             Flatten(l.values[k - 1]))
  {
    StoredAt(l, w, hits, k - 1);
    UnmaskLast(text, w.placeholders, w.mapping, k);
  }

  lemma FillRound(text: string, prev: seq<Tok>, l: Layout, w: Work, hits: set<string>, k: nat)
    requires Represents(l, w, hits) && 0 < k <= |l.names| && "" !in w.placeholders && !Stray(prev, l.names[k - 1])
    requires Unmask(text, w.placeholders[..k - 1], w.mapping) == Flatten(prev)
    ensures Unmask(text, w.placeholders[..k], w.mapping) == Flatten(Subst(prev, l.names[k - 1], l.values[k - 1]))
  {
    UnmaskRound(text, l, w, hits, k);
    ReplaceIsSubst(prev, l.names[k - 1], l.values[k - 1]);
  }

  /** Unmasking a seamless text laid out as ts performs exactly those replacements. */
  lemma {:induction false} UnmaskIsFilled(ts: seq<Tok>, text: string, l: Layout, w: Work, hits: set<string>, k: nat)
    requires Represents(l, w, hits) && Seamless(ts, l) && text == Flatten(ts)
    requires k <= |l.names| && "" !in w.placeholders
    ensures Unmask(text, w.placeholders[..k], w.mapping) == Flatten(Filled(ts, l, k))
  {
    if k > 0 {
      UnmaskIsFilled(ts, text, l, w, hits, k - 1);
      FillRound(text, Filled(ts, l, k - 1), l, w, hits, k);
    }
  }

  /** A later pass masked a part that contained an earlier placeholder. */
  ghost predicate Swallowed(l: Layout) {
    exists j, n: nat :: 0 <= j < |l.values| && Ph(n) in l.values[j]
  }

  lemma {:induction false} FilledLeaves(ts: seq<Tok>, l: Layout, k: nat, n: nat)
    requires k <= |l.names| == |l.values| && (forall j :: 0 <= j < |l.values| ==> Ph(n) !in l.values[j])
    requires Ph(n) in Filled(ts, l, k)
    ensures Ph(n) in ts && n !in l.names[..k]
  {
    if k > 0 {
      SubstMember(Filled(ts, l, k - 1), l.names[k - 1], l.values[k - 1], Ph(n));
      FilledLeaves(ts, l, k - 1, n);
      assert l.names[..k] == l.names[..k - 1] + [l.names[k - 1]];
    }
  }

  /**
   Whatever the translator did around the placeholders, moving or repeating them included:
   if the text is seamless and no part swallowed another, unmasking puts back exactly the masked
   text at each of them and leaves the rest alone.
   */
  lemma UnmaskRestores(ts: seq<Tok>, l: Layout, w: Work, hits: set<string>)
    requires Sound(l) && Represents(l, w, hits) && Seamless(ts, l) && !Swallowed(l)
    requires forall n: nat :: Ph(n) in ts ==> n in l.names
    ensures "" !in w.placeholders && Unmask(Flatten(ts), w.placeholders, w.mapping) == Expand(ts, l.full)
  {
    var k := |l.names|;
    PlaceholdersNotEmpty(l, w, hits);
    UnmaskIsFilled(ts, Flatten(ts), l, w, hits, k);
    assert w.placeholders[..k] == w.placeholders && l.names[..k] == l.names;
    var done := Filled(ts, l, k);
    forall t | t in done ensures t.Ch? {
      if t.Ph? { FilledLeaves(ts, l, k, t.n); }
    }
    PlainText(done, l.full);
    FilledExpands(ts, l, k);
  }

  lemma {:induction false} FilledKeeps(ts: seq<Tok>, l: Layout, i: nat, k: nat, n: nat)
    requires i <= k <= |l.names| == |l.values| && Ph(n) in Filled(ts, l, i)
    requires forall m :: i <= m < k ==> l.names[m] != n
    ensures Ph(n) in Filled(ts, l, k)
  {
    if i < k {
      FilledKeeps(ts, l, i, k - 1, n);
      SubstMember(Filled(ts, l, k - 1), l.names[k - 1], l.values[k - 1], Ph(n));
    }
  }

  /** A placeholder that is not in the working text is in a part that was masked later. */
  lemma SwallowedLater(l: Layout, work: seq<Tok>, source: string, j: nat) returns (i: nat)
    requires Lays(l, work, source) && j < |l.values| && Ph(l.names[j]) !in work
    ensures j < i < |l.values| && Ph(l.names[j]) in l.values[i]
  {
    assert l.names[j] in l.names;
    i := PooledIn(work, l.values, l.names[j]);
    assert SoundAt(l, i);
    NameOrder(l, j, i);
  }

  lemma PooledIn(work: seq<Tok>, values: seq<seq<Tok>>, n: nat) returns (i: nat)
    requires multiset(work + Pool(values))[Ph(n)] == 1 && Ph(n) !in work
    ensures i < |values| && Ph(n) in values[i]
  {
    assert Ph(n) in work + Pool(values);
    PoolMember(values, Ph(n));
    i :| 0 <= i < |values| && Ph(n) in values[i];
  }

  /** The last part that swallowed a placeholder is not swallowed itself. */
  lemma {:induction false} OutermostSwallower(l: Layout, work: seq<Tok>, source: string, j: nat, n: nat)
    returns (j': nat, n': nat)
    requires Lays(l, work, source) && j < |l.values| && Ph(n) in l.values[j]
    ensures j' < |l.values| && Ph(n') in l.values[j'] && Ph(l.names[j']) in work
    decreases |l.values| - j
  {
    if Ph(l.names[j]) in work {
      j', n' := j, n;
    } else {
      var i := SwallowedLater(l, work, source, j);
      j', n' := OutermostSwallower(l, work, source, i, l.names[j]);
    }
  }

  lemma SwallowedInserted(l: Layout, work: seq<Tok>, j: nat, n: nat)
    requires j < |l.names| == |l.values| && Ph(n) in l.values[j] && Ph(l.names[j]) in work
    requires (forall i :: 0 <= i < j ==> l.names[i] != l.names[j])
           && (forall i :: j < i < |l.names| ==> l.names[i] != n)
    ensures Ph(n) in Filled(work, l, |l.names|)
  {
    var name := l.names[j];
    FilledKeeps(work, l, 0, j, name);
    SubstMember(Filled(work, l, j), name, l.values[j], Ph(n));
    FilledKeeps(work, l, j + 1, |l.names|, n);
  }

  /** What was swallowed is put back too late to be replaced itself. */
  lemma SwallowedStays(l: Layout, work: seq<Tok>, source: string) returns (n: nat)
    requires Lays(l, work, source) && Swallowed(l)
    ensures n in l.names && Ph(n) in Filled(work, l, |l.names|)
  {
    var j, m: nat :| 0 <= j < |l.values| && Ph(m) in l.values[j];
    j, n := OutermostSwallower(l, work, source, j, m);
    EarlierName(l, j, n);
    SwallowedInserted(l, work, j, n);
  }

  lemma EarlierName(l: Layout, j: nat, n: nat)
    requires Sound(l) && j < |l.values| && Ph(n) in l.values[j]
    ensures n in l.names && forall i :: j < i < |l.names| ==> l.names[i] != n
    ensures forall i :: 0 <= i < j ==> l.names[i] != l.names[j]
  {
    assert SoundAt(l, j);
  }

  /** Of an allocated placeholder the working text has the text exactly if the token is not in a masked part. */
  lemma PresentIffNotSwallowed(l: Layout, work: seq<Tok>, source: string, n: nat)
    requires Lays(l, work, source) && NoCores(source, l) && n in l.names
    ensures Contains(Flatten(work), Placeholder(n)) <==> forall j :: 0 <= j < |l.values| ==> Ph(n) !in l.values[j]
  {
    NoCoresUnspelled(work, l, n);
    UnspelledIsNotStray(work, n);
    OccursIffToken(work, n);
    InOnePlace(work, Pool(l.values), Ph(n));
    PoolMember(l.values, Ph(n));
  }

  /** Where nothing was swallowed, every placeholder is in the working text. */
  lemma TokenIsThere(l: Layout, work: seq<Tok>, source: string, n: nat)
    requires Lays(l, work, source) && !Swallowed(l) && n in l.names
    ensures Ph(n) in work && Contains(Flatten(work), Placeholder(n))
  {
    InOnePlace(work, Pool(l.values), Ph(n));
    PoolMember(l.values, Ph(n));
    var k :| 0 <= k < |work| && work[k] == Ph(n);
    OccursIfToken(work, k);
  }

  lemma InOnePlace(a: seq<Tok>, b: seq<Tok>, t: Tok)
    requires multiset(a + b)[t] == 1
    ensures t in a <==> t !in b
  {
    assert multiset(a + b) == multiset(a) + multiset(b);
  }

  /** Validation accepts the untouched working text exactly when nothing was swallowed. */
  lemma ValidationIff(l: Layout, work: seq<Tok>, source: string, w: Work, hits: set<string>)
    requires Lays(l, work, source) && Represents(l, w, hits) && NoCores(source, l)
    ensures (forall p :: p in w.placeholders ==> Contains(Flatten(work), p)) <==> !Swallowed(l)
  {
    if Swallowed(l) {
      var j, n: nat :| 0 <= j < |l.values| && Ph(n) in l.values[j];
      SwallowedIsMissing(l, work, source, w, hits, j, n);
    } else {
      forall p | p in w.placeholders ensures Contains(Flatten(work), p) {
        var i: nat :| i < |w.placeholders| && w.placeholders[i] == p;
        StoredAt(l, w, hits, i);
        PresentIffNotSwallowed(l, work, source, l.names[i]);
      }
    }
  }

  lemma IndexOfName(l: Layout, j: nat, n: nat) returns (i: nat)
    requires Sound(l) && j < |l.values| && Ph(n) in l.values[j]
    ensures i < |l.names| && l.names[i] == n && n in l.names
  {
    assert SoundAt(l, j);
    i :| 0 <= i < |l.names| && l.names[i] == n;
  }

  lemma SwallowedIsMissing(l: Layout, work: seq<Tok>, source: string, w: Work, hits: set<string>, j: nat, n: nat)
    requires Lays(l, work, source) && Represents(l, w, hits) && NoCores(source, l)
    requires j < |l.values| && Ph(n) in l.values[j]
    ensures Placeholder(n) in w.placeholders && !Contains(Flatten(work), Placeholder(n))
  {
    var i := IndexOfName(l, j, n);
    StoredAt(l, w, hits, i);
    PresentIffNotSwallowed(l, work, source, n);
  }
}
