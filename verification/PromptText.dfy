/** Turning a prompt into text under an exact UTF-8 byte budget (src/acp/event-mapper.ts). */
module PromptText {
  import opened Text
  import opened Utf16

  type Units = seq<CodeUnit>

  const NEWLINE: CodeUnit := 0x0A
  const BACKSLASH: CodeUnit := 0x5C

  // ---------------------------------------------------------------- byte length

  /** The bytes one code point takes in UTF-8 (section 3 of RFC 3629); a lone surrogate becomes U+FFFD. */
  function CodePointBytes(c: Units): nat
    requires c != []
  {
    if |c| == 2 then 4 else if c[0] < 0x80 then 1 else if c[0] < 0x800 then 2 else 3
  }

  /** `Buffer.byteLength(s, "utf-8")`. */
  function ByteLength(s: Units): nat {
    if s == [] then 0 else CodePointBytes(s[..FirstLength(s)]) + ByteLength(s[FirstLength(s)..])
  }

  /** A surrogate pair is formed where a and b meet. */
  predicate Pairs(a: Units, b: Units) {
    a != [] && b != [] && IsHigh(a[|a| - 1]) && IsLow(b[0])
  }

  lemma JoinFirst(a: Units, b: Units)
    requires a != [] && !(|a| == 1 && Pairs(a, b))
    ensures FirstLength(a + b) == FirstLength(a)
    ensures (a + b)[..FirstLength(a)] == a[..FirstLength(a)] && (a + b)[FirstLength(a)..] == a[FirstLength(a)..] + b
    ensures Pairs(a, b) <==> Pairs(a[FirstLength(a)..], b)
  {
    var k := FirstLength(a);
    assert a[k..] != [] ==> a[k..][|a[k..]| - 1] == a[|a| - 1];
  }

  lemma LoneSurrogate(s: Units)
    requires s != [] && (IsHigh(s[0]) || IsLow(s[0])) && FirstLength(s) == 1
    ensures ByteLength(s) == 3 + ByteLength(s[1..])
  {
    assert s[..1][0] == s[0] && |s[..1]| == 1;
  }

  lemma SurrogatePair(s: Units)
    requires |s| >= 2 && FirstLength(s) == 2
    ensures ByteLength(s) == 4 + ByteLength(s[2..])
  {
    assert |s[..2]| == 2;
  }

  lemma ByteLengthOfPair(a: Units, b: Units)
    requires |a| == 1 && Pairs(a, b)
    ensures ByteLength(a + b) == ByteLength(a) + ByteLength(b) - 2
  {
    assert (a + b)[2..] == b[1..] && a[1..] == [];
    LoneSurrogate(a);
    LoneSurrogate(b);
    SurrogatePair(a + b);
  }

  /** Byte lengths add up, except that two lone surrogates meeting become one four-byte code point. */
  lemma {:induction false} ByteLengthConcat(a: Units, b: Units)
    ensures ByteLength(a + b) == ByteLength(a) + ByteLength(b) - if Pairs(a, b) then 2 else 0
    decreases |a|
  {
    if a == [] {
      assert a + b == b;
    } else if |a| == 1 && Pairs(a, b) {
      ByteLengthOfPair(a, b);
    } else {
      JoinFirst(a, b);
      ByteLengthConcat(a[FirstLength(a)..], b);
    }
  }

  function Join(parts: seq<Units>): Units {
    if parts == [] then []
    else if |parts| == 1 then parts[0]
    else Join(parts[..|parts| - 1]) + [NEWLINE] + parts[|parts| - 1]
  }

  /** The parts are joined in their order, by one line break each. */
  lemma {:induction false} JoinedInFront(part: Units, rest: seq<Units>)
    ensures Join([part] + rest) == if rest == [] then part else part + [NEWLINE] + Join(rest)
  {
    if rest != [] {
      var init, last := rest[..|rest| - 1], rest[|rest| - 1];
      assert ([part] + rest)[..|rest|] == [part] + init;
      JoinedInFront(part, init);
      if init != [] {
        assert part + [NEWLINE] + Join(init) + [NEWLINE] + last == part + [NEWLINE] + (Join(init) + [NEWLINE] + last);
      }
    }
  }

  function Separator(parts: seq<Units>): nat { if parts == [] then 0 else 1 }

  /** A joined part costs its own bytes and one for the newline, which keeps surrogates of two parts from pairing. */
  lemma JoinedLength(parts: seq<Units>, part: Units)
    ensures ByteLength(Join(parts + [part])) == ByteLength(Join(parts)) + Separator(parts) + ByteLength(part)
  {
    assert (parts + [part])[..|parts|] == parts;
    if parts != [] {
      ByteLengthConcat(Join(parts), [NEWLINE]);
      ByteLengthConcat(Join(parts) + [NEWLINE], part);
      assert ByteLength([NEWLINE]) == 1 by { assert [NEWLINE][1..] == []; }
    }
  }

  lemma {:induction false} JoinGrows(parts: seq<Units>, more: seq<Units>)
    ensures ByteLength(Join(parts)) <= ByteLength(Join(parts + more))
    decreases |more|
  {
    if more == [] {
      assert parts + more == parts;
    } else {
      JoinedLength(parts, more[0]);
      JoinGrows(parts + [more[0]], more[1..]);
      assert parts + [more[0]] + more[1..] == parts + more;
    }
  }

  // ---------------------------------------------------------------- escaping

  predicate IsInlineControl(u: nat) {
    u <= 0x1F || 0x7F <= u <= 0x9F || u == 0x2028 || u == 0x2029
  }

  /** The first quarters of the two halves of Latin-1, delete, and the line and paragraph separators. */
  lemma ControlsAre(u: nat)
    ensures IsInlineControl(u) <==> (u < 0x100 && u % 0x80 < 0x20) || u == 0x7F || u / 2 == 0x1014
  {}

  /** A digit of `toString(16)`. */
  function HexDigit(d: nat): CodeUnit
    requires d < 16
  {
    if d < 10 then 0x30 + d else 0x57 + d
  }

  /** What follows the backslash: the short escapes, or hexadecimal digits. */
  function EscapeTail(u: CodeUnit): (r: Units)
    requires IsInlineControl(u)
    ensures r != [] && r[|r| - 1] != BACKSLASH
    ensures forall i :: 0 <= i < |r| ==> !IsInlineControl(r[i]) && !IsBracket(r[i])
  {
    if u == 0x00 then [0x30]
    else if u == 0x0D then [0x72]
    else if u == 0x0A then [0x6E]
    else if u == 0x09 then [0x74]
    else if u == 0x0B then [0x76]
    else if u == 0x0C then [0x66]
    else if u == 0x2028 then [0x75, 0x32, 0x30, 0x32, 0x38]
    else if u == 0x2029 then [0x75, 0x32, 0x30, 0x32, 0x39]
    else [0x78, HexDigit(u / 16), HexDigit(u % 16)]
  }

  function HexValue(u: CodeUnit): int { if u < 0x3A then u - 0x30 else u - 0x57 }

  /** What an escape of JavaScript stands for: what follows the backslash is a letter or zero, or x or u and digits. */
  function ReadEscape(tail: Units): int
    requires tail != []
  {
    if tail == [0x30] then 0
    else if tail == [0x74] then 9
    else if tail == [0x6E] then 10
    else if tail == [0x76] then 11
    else if tail == [0x66] then 12
    else if tail == [0x72] then 13
    else HexNumber(tail[1..])
  }

  function HexNumber(digits: Units): int {
    if digits == [] then 0 else 16 * HexNumber(digits[..|digits| - 1]) + HexValue(digits[|digits| - 1])
  }

  /** Every escape stands for the character that it replaces. */
  lemma EscapesReadBack(u: CodeUnit)
    requires IsInlineControl(u)
    ensures ReadEscape(EscapeTail(u)) == u
    ensures |EscapeTail(u)| == if u == 0 || 9 <= u <= 13 then 1 else if u < 0x100 then 3 else 5
  {
    var tail := EscapeTail(u);
    if |tail| == 3 {
      assert tail[1..][..1] == [tail[1]] && [tail[1]][..0] == [];
      assert HexNumber([tail[1]]) == HexValue(tail[1]);
    } else if |tail| == 5 {
      var digits := tail[1..];
      assert digits == [0x32, 0x30, 0x32, tail[4]];
      FourDigits(0x32, 0x30, 0x32, tail[4]);
    }
  }

  lemma FourDigits(a: CodeUnit, b: CodeUnit, c: CodeUnit, d: CodeUnit)
    ensures HexNumber([a, b, c, d])
         == 16 * (16 * (16 * HexValue(a) + HexValue(b)) + HexValue(c)) + HexValue(d)
  {
    assert [a, b, c, d][..3] == [a, b, c] && [a, b, c][..2] == [a, b] && [a, b][..1] == [a] && [a][..0] == [];
    assert HexNumber([a]) == HexValue(a);
    assert HexNumber([a, b]) == 16 * HexNumber([a]) + HexValue(b);
    assert HexNumber([a, b, c]) == 16 * HexNumber([a, b]) + HexValue(c);
  }

  function EscapeUnit(u: CodeUnit): (r: Units)
    ensures !IsInlineControl(u) ==> r == [u]
    ensures IsInlineControl(u) ==> |r| > 1 && r[|r| - 1] != BACKSLASH
    ensures forall i :: 0 <= i < |r| ==> !IsInlineControl(r[i])
    ensures forall i :: 0 <= i < |r| && IsBracket(r[i]) ==> r == [u]
  {
    if !IsInlineControl(u) then [u] else [BACKSLASH] + EscapeTail(u)
  }

  predicate IsBracket(u: CodeUnit) { u == 0x28 || u == 0x29 || u == 0x5B || u == 0x5D }

  /** The first n units, each replaced by its image. */
  function Mapped(f: CodeUnit -> Units, s: Units, n: nat): Units
    requires n <= |s|
  {
    if n == 0 then [] else Mapped(f, s, n - 1) + f(s[n - 1])
  }

  function Escaped(s: Units): Units { Mapped(EscapeUnit, s, |s|) }

  predicate NoControls(s: Units) { forall i :: 0 <= i < |s| ==> !IsInlineControl(s[i]) }

  lemma {:induction false} MappedIsClean(f: CodeUnit -> Units, s: Units, n: nat)
    requires n <= |s| && forall i :: 0 <= i < n ==> NoControls(f(s[i]))
    ensures NoControls(Mapped(f, s, n))
  {
    if n > 0 { MappedIsClean(f, s, n - 1); }
  }

  lemma {:induction false} MappedLength(f: CodeUnit -> Units, s: Units, n: nat)
    requires n <= |s|
    requires forall u: CodeUnit :: if IsInlineControl(u) then |f(u)| > 1 else f(u) == [u]
    ensures |Mapped(f, s, n)| >= n
    ensures |Mapped(f, s, n)| == n <==> forall i :: 0 <= i < n ==> !IsInlineControl(s[i])
    ensures |Mapped(f, s, n)| == n ==> Mapped(f, s, n) == s[..n]
  {
    if n > 0 {
      MappedLength(f, s, n - 1);
      assert s[..n] == s[..n - 1] + [s[n - 1]];
    }
  }

  predicate IsCodePoint(c: Units) { |c| == 1 || (|c| == 2 && IsHigh(c[0]) && IsLow(c[1])) }

  /** What iterating over a string yields at i. */
  function CodePointAt(value: Units, i: nat): (c: Units)
    requires i < |value|
    ensures IsCodePoint(c) && i + |c| <= |value| && c == value[i..i + |c|]
  {
    value[i..i + FirstLength(value[i..])]
  }

  /** The text the loop appends for one code point. */
  function EscapedCodePoint(c: Units): Units
    requires IsCodePoint(c)
  {
    if !IsInlineControl(CodePoint(c)) then c else EscapeUnit(CodePoint(c))
  }

  lemma MappedNext(f: CodeUnit -> Units, s: Units, i: nat, k: nat)
    requires 1 <= k <= 2 && i + k <= |s|
    requires k == 2 ==> f(s[i]) == [s[i]] && f(s[i + 1]) == [s[i + 1]]
    ensures Mapped(f, s, i + k) == Mapped(f, s, i) + if k == 1 then f(s[i]) else s[i..i + k]
  {
    if k == 2 {
      assert Mapped(f, s, i + 1) == Mapped(f, s, i) + [s[i]];
      assert s[i..i + 2] == [s[i]] + [s[i + 1]];
    }
  }

  lemma EscapeStep(value: Units, i: nat, c: Units, escaped: Units)
    requires IsCodePoint(c) && i + |c| <= |value| && c == value[i..i + |c|] && escaped == Mapped(EscapeUnit, value, i)
    ensures escaped + EscapedCodePoint(c) == Mapped(EscapeUnit, value, i + |c|)
  {
    MappedNext(EscapeUnit, value, i, |c|);
    if |c| == 1 {
      assert c == [value[i]] && EscapedCodePoint(c) == EscapeUnit(value[i]);
    } else {
      assert CodePoint(c) >= 0x10000 && EscapedCodePoint(c) == c;
    }
  }

  /** The loop runs over code points, the result is as if over units: a surrogate pair is no control character. */
  method EscapeInlineControlChars(value: Units) returns (escaped: Units)
    ensures escaped == Escaped(value)
  {
    escaped := [];
    var i := 0;
    while i < |value|
      invariant 0 <= i <= |value|
      invariant escaped == Mapped(EscapeUnit, value, i)
    {
      var codePoint := CodePointAt(value, i);
      EscapeStep(value, i, codePoint, escaped);
      escaped := escaped + EscapedCodePoint(codePoint);
      i := i + |codePoint|;
    }
  }

  /** `codePointAt(0)` of a code point given by its units. */
  function CodePoint(c: Units): (r: nat)
    requires IsCodePoint(c)
    ensures |c| == 2 ==> 0x10000 <= r <= 0x10FFFF
    ensures |c| == 1 ==> r == c[0]
  {
    if |c| == 1 then c[0] else 0x10000 + (c[0] as int - 0xD800) * 0x400 + (c[1] as int - 0xDC00)
  }

  function Pow2(n: nat): nat { if n == 0 then 1 else 2 * Pow2(n - 1) }

  /** How many bits k bytes of UTF-8 carry (section 3 of RFC 3629). */
  function Payload(k: nat): nat { if k == 1 then 7 else 5 * k + 1 }

  lemma Payloads()
    ensures Pow2(Payload(1)) == 0x80 && Pow2(Payload(2)) == 0x800
    ensures Pow2(Payload(3)) == 0x10000 && Pow2(Payload(4)) == 0x200000
  {
    assert Pow2(7) == 0x80 && Pow2(11) == 16 * Pow2(7);
    assert Pow2(16) == 32 * Pow2(11) && Pow2(21) == 32 * Pow2(16);
  }

  /** A code point is counted with the fewest bytes that can carry it. */
  lemma FewestBytes(c: Units)
    requires IsCodePoint(c)
    ensures CodePoint(c) < Pow2(Payload(CodePointBytes(c)))
    ensures CodePointBytes(c) > 1 ==> CodePoint(c) >= Pow2(Payload(CodePointBytes(c) - 1))
  {
    Payloads();
  }

  /** Every code point beyond the basic plane has its pair of units, and no two pairs stand for the same one. */
  lemma PairsAreCodePoints(r: nat, c: Units)
    requires 0x10000 <= r <= 0x10FFFF && IsCodePoint(c)
    ensures CodePoint(c) == r <==> c == [0xD800 + (r - 0x10000) / 0x400, 0xDC00 + (r - 0x10000) % 0x400]
  {}

  /** Escaping changes exactly the texts with a control character, and leaves none. */
  lemma EscapedMeaning(s: Units)
    ensures NoControls(Escaped(s))
    ensures Escaped(s) == s <==> NoControls(s)
  {
    MappedIsClean(EscapeUnit, s, |s|);
    MappedLength(EscapeUnit, s, |s|);
    assert s[..|s|] == s;
  }

  lemma {:induction false} MappedConcat(f: CodeUnit -> Units, a: Units, b: Units, all: Units, n: nat, m: nat)
    requires n <= |b| && all == a + b && m == |a| + n
    ensures Mapped(f, all, m) == Mapped(f, a, |a|) + Mapped(f, b, n)
  {
    if n == 0 {
      MappedPrefix(f, a, all, |a|);
    } else {
      MappedConcat(f, a, b, all, n - 1, m - 1);
      assert all[m - 1] == b[n - 1];
      Regroup(Mapped(f, a, |a|), Mapped(f, b, n - 1), f(b[n - 1]));
    }
  }

  lemma Regroup(a: Units, b: Units, c: Units)
    ensures (a + b) + c == a + (b + c)
  {}

  lemma {:induction false} MappedPrefix(f: CodeUnit -> Units, a: Units, all: Units, n: nat)
    requires n <= |a| && a <= all
    ensures Mapped(f, all, n) == Mapped(f, a, n)
  {
    if n > 0 { MappedPrefix(f, a, all, n - 1); }
  }

  /** Every part of a text is escaped by itself, and a unit only if it is a control character. */
  lemma EscapedByParts(a: Units, b: Units, u: CodeUnit)
    ensures Escaped(a + b) == Escaped(a) + Escaped(b)
    ensures Escaped([u]) == if IsInlineControl(u) then [BACKSLASH] + EscapeTail(u) else [u]
  {
    MappedConcat(EscapeUnit, a, b, a + b, |b|, |a + b|);
    assert Mapped(EscapeUnit, [u], 1) == Mapped(EscapeUnit, [u], 0) + EscapeUnit(u);
  }

  /** A bracket of a title gets a backslash in front. */
  function BracketUnit(u: CodeUnit): Units { if IsBracket(u) then [BACKSLASH, u] else [u] }

  function EscapeResourceTitle(value: Units): Units { Mapped(BracketUnit, Escaped(value), |Escaped(value)|) }

  lemma NoBracketInside(u: CodeUnit)
    ensures EscapeResourceTitle([u]) == if IsBracket(u) then [BACKSLASH, u] else Escaped([u])
  {
    var e := Escaped([u]);
    EscapedByParts([], [], u);
    if IsBracket(u) {
      assert e == [u] && Mapped(BracketUnit, e, 1) == Mapped(BracketUnit, e, 0) + BracketUnit(u);
    } else {
      PlainMapped(e, |e|);
    }
  }

  lemma {:induction false} PlainMapped(e: Units, n: nat)
    requires n <= |e| && forall i :: 0 <= i < n ==> !IsBracket(e[i])
    ensures Mapped(BracketUnit, e, n) == e[..n]
  {
    if n > 0 { PlainMapped(e, n - 1); }
  }

  /** So is every part of a title, with a backslash before a bracket. */
  lemma TitleByParts(a: Units, b: Units, u: CodeUnit)
    ensures EscapeResourceTitle(a + b) == EscapeResourceTitle(a) + EscapeResourceTitle(b)
    ensures EscapeResourceTitle([u])
         == if u == 0x28 || u == 0x29 || u == 0x5B || u == 0x5D then [BACKSLASH, u] else Escaped([u])
  {
    EscapedByParts(a, b, u);
    MappedConcat(BracketUnit, Escaped(a), Escaped(b), Escaped(a + b), |Escaped(b)|, |Escaped(a + b)|);
    NoBracketInside(u);
  }

  /** How many backslashes stand directly before i. */
  function Run(s: Units, i: nat): nat
    requires i <= |s|
  {
    if i == 0 || s[i - 1] != BACKSLASH then 0 else 1 + Run(s, i - 1)
  }

  /** A bracket at i that a reader of escapes takes for itself: the backslashes before it pair up. */
  predicate Bare(s: Units, i: nat) { i < |s| && IsBracket(s[i]) && Run(s, i) % 2 == 0 }

  /** A bracket at i that an unpaired backslash already escapes. */
  predicate Escapes(s: Units, i: nat) { i < |s| && IsBracket(s[i]) && Run(s, i) % 2 == 1 }

  lemma {:induction false} RunOfPrefix(s: Units, more: Units, i: nat)
    requires i <= |s|
    ensures Run(s + more, i) == Run(s, i)
  {
    if i > 0 { RunOfPrefix(s, more, i - 1); }
  }

  /** Images that end in a backslash exactly when they are one keep the run of backslashes at the end. */
  lemma {:induction false} RunOfMapped(f: CodeUnit -> Units, s: Units, n: nat)
    requires n <= |s|
    requires forall u: CodeUnit :: if u == BACKSLASH then f(u) == [u] else f(u) != [] && f(u)[|f(u)| - 1] != BACKSLASH
    ensures Run(Mapped(f, s, n), |Mapped(f, s, n)|) == Run(s, n)
  {
    if n > 0 {
      RunOfMapped(f, s, n - 1);
      RunOfPrefix(Mapped(f, s, n - 1), f(s[n - 1]), |Mapped(f, s, n - 1)|);
    }
  }

  ghost predicate SomeBare(s: Units, from: nat, to: nat) { exists i: nat :: from <= i < to && Bare(s, i) }

  ghost predicate SomeEscaped(s: Units, from: nat, to: nat) { exists i: nat :: from <= i < to && Escapes(s, i) }

  /** One more unit leaves the brackets before it as they were. */
  lemma EarlierBrackets(before: Units, image: Units)
    ensures SomeBare(before + image, 0, |before|) <==> SomeBare(before, 0, |before|)
    ensures SomeEscaped(before + image, 0, |before|) <==> SomeEscaped(before, 0, |before|)
  {
    forall i: nat | i < |before|
      ensures (Bare(before + image, i) <==> Bare(before, i)) && (Escapes(before + image, i) <==> Escapes(before, i))
    {
      RunOfPrefix(before, image, i);
    }
  }

  lemma SomeJoin(s: Units, from: nat, mid: nat, to: nat)
    requires from <= mid <= to
    ensures SomeBare(s, from, to) <==> SomeBare(s, from, mid) || SomeBare(s, mid, to)
    ensures SomeEscaped(s, from, to) <==> SomeEscaped(s, from, mid) || SomeEscaped(s, mid, to)
  {}

  lemma SomeOne(s: Units, i: nat)
    ensures SomeEscaped(s, i, i + 1) <==> Escapes(s, i)
  {}

  /** The bracket of a unit with a backslash in front is bare exactly if it was escaped. */
  lemma NewBare(before: Units, u: CodeUnit, odd: bool)
    requires odd <==> Run(before, |before|) % 2 == 1
    ensures SomeBare(before + BracketUnit(u), |before|, |before + BracketUnit(u)|) <==> IsBracket(u) && odd
  {
    var m, at := before + BracketUnit(u), |before| + 1;
    RunOfPrefix(before, BracketUnit(u), |before|);
    assert IsBracket(u) ==> Run(m, at) == 1 + Run(m, |before|) && (Bare(m, at) <==> odd);
    assert IsBracket(u) ==> !IsBracket(m[|before|]);
  }

  /** With a backslash put before every bracket, one is bare exactly if one was escaped before. */
  lemma {:induction false} BareIffEscaped(e: Units, n: nat, m: Units)
    requires n <= |e| && m == Mapped(BracketUnit, e, n)
    ensures SomeBare(m, 0, |m|) <==> SomeEscaped(e, 0, n)
  {
    if n > 0 {
      var before, u := Mapped(BracketUnit, e, n - 1), e[n - 1];
      BareIffEscaped(e, n - 1, before);
      RunOfMapped(BracketUnit, e, n - 1);
      NewBare(before, u, Run(e, n - 1) % 2 == 1);
      EarlierBrackets(before, BracketUnit(u));
      SomeJoin(m, 0, |before|, |m|);
      SomeJoin(e, 0, n - 1, n);
      SomeOne(e, n - 1);
    }
  }

  /** The image of a unit holds a bracket only if it is one. */
  lemma NewEscape(before: Units, u: CodeUnit, odd: bool)
    requires odd <==> Run(before, |before|) % 2 == 1
    ensures SomeEscaped(before + EscapeUnit(u), |before|, |before + EscapeUnit(u)|) <==> IsBracket(u) && odd
  {
    var image, at := EscapeUnit(u), |before|;
    var m := before + image;
    RunOfPrefix(before, image, at);
    assert forall i: nat :: at <= i < |m| ==> m[i] == image[i - at];
    assert IsBracket(u) ==> image == [u] && (Escapes(m, at) <==> odd);
  }

  lemma EscapeAdded(before: Units, u: CodeUnit, odd: bool, m: Units)
    requires (odd <==> Run(before, |before|) % 2 == 1) && m == before + EscapeUnit(u)
    ensures SomeEscaped(m, 0, |m|) <==> SomeEscaped(before, 0, |before|) || (IsBracket(u) && odd)
  {
    NewEscape(before, u, odd);
    EarlierBrackets(before, EscapeUnit(u));
    SomeJoin(m, 0, |before|, |m|);
  }

  lemma EscapedNext(s: Units, n: nat)
    requires n < |s|
    ensures SomeEscaped(s, 0, n + 1) <==> SomeEscaped(s, 0, n) || (IsBracket(s[n]) && Run(s, n) % 2 == 1)
  {
    SomeJoin(s, 0, n, n + 1);
    SomeOne(s, n);
  }

  /** Escaping control characters neither adds nor removes an escaped bracket. */
  lemma {:induction false} EscapedBrackets(s: Units, n: nat, m: Units)
    requires n <= |s| && m == Mapped(EscapeUnit, s, n)
    ensures SomeEscaped(m, 0, |m|) <==> SomeEscaped(s, 0, n)
  {
    if n > 0 {
      var before := Mapped(EscapeUnit, s, n - 1);
      EscapedBrackets(s, n - 1, before);
      RunOfMapped(EscapeUnit, s, n - 1);
      EscapeAdded(before, s[n - 1], Run(s, n - 1) % 2 == 1, m);
      EscapedNext(s, n - 1);
    }
  }

  lemma EscapedRun(s: Units)
    ensures Run(Escaped(s), |Escaped(s)|) == Run(s, |s|)
  {
    RunOfMapped(EscapeUnit, s, |s|);
  }

  lemma BracketedRun(e: Units, t: Units)
    requires t == Mapped(BracketUnit, e, |e|)
    ensures Run(t, |t|) == Run(e, |e|)
  {
    RunOfMapped(BracketUnit, e, |e|);
  }

  lemma BracketedIsClean(e: Units, t: Units)
    requires t == Mapped(BracketUnit, e, |e|) && NoControls(e)
    ensures NoControls(t)
  {
    MappedIsClean(BracketUnit, e, |e|);
  }

  /** What the closing parenthesis and the brackets before it are to a reader, in terms of the escaped text e. */
  lemma ClosedText(e: Units, t: Units)
    requires t == Mapped(BracketUnit, e, |e|)
    ensures SomeBare(t + [0x29], 0, |t|) <==> SomeEscaped(e, 0, |e|)
    ensures Bare(t + [0x29], |t|) <==> Run(e, |e|) % 2 == 0
  {
    BracketedRun(e, t);
    BareIffEscaped(e, |e|, t);
    EarlierBrackets(t, [0x29]);
    RunOfPrefix(t, [0x29], |t|);
  }

  /**
   * A bracket of an escaped title can be taken for the closing parenthesis of the annotation exactly when the title
   * itself escapes one with an unpaired backslash; the closing parenthesis is recognised exactly when the backslashes
   * at the end of the title pair up.
   */
  lemma TitleCloses(title: Units)
    ensures var t := EscapeResourceTitle(title);
            && NoControls(t)
            && (SomeBare(t + [0x29], 0, |t|) <==> SomeEscaped(title, 0, |title|))
            && (Bare(t + [0x29], |t|) <==> Run(title, |title|) % 2 == 0)
  {
    EscapedMeaning(title);
    BracketedIsClean(Escaped(title), EscapeResourceTitle(title));
    ClosedText(Escaped(title), EscapeResourceTitle(title));
    EscapedRun(title);
    EscapedBrackets(title, |title|, Escaped(title));
  }

  // ---------------------------------------------------------------- prompt blocks

  datatype ContentBlock =
    | TextBlock(text: Units)
    | ResourceBlock(content: Option<Units>)
    | ResourceLink(title: Option<Units>, uri: Option<Units>)
    | OtherBlock

  function Ascii(s: string): (r: Units)
    requires forall i :: 0 <= i < |s| ==> (s[i] as int) < 0x80
  {
    seq(|s|, i requires 0 <= i < |s| => s[i] as int)
  }

  predicate Given(value: Option<Units>) { value.Some? && value.value != [] }

  function Annotation(title: Option<Units>): Units {
    if Given(title) then Ascii(" (") + EscapeResourceTitle(title.value) + Ascii(")") else []
  }

  function Linked(uri: Option<Units>): (r: Units)
    ensures r != []
  {
    var address := if Given(uri) then Escaped(uri.value) else [];
    if address != [] then Ascii("] ") + address else Ascii("]")
  }

  /** The text a block contributes, if any. */
  function BlockText(block: ContentBlock): Option<Units> {
    match block
    case TextBlock(text) => Some(text)
    case ResourceBlock(content) => if Given(content) then content else None
    case ResourceLink(title, uri) => Some(Ascii("[Resource link") + Annotation(title) + Linked(uri))
    case OtherBlock => None
  }

  lemma CleanConcat(a: Units, b: Units)
    requires NoControls(a) && NoControls(b)
    ensures NoControls(a + b)
  {}

  lemma CleanAscii(s: string)
    requires forall i :: 0 <= i < |s| ==> 0x20 <= s[i] as int < 0x7F
    ensures NoControls(Ascii(s))
  {}

  lemma AnnotationIsClean(title: Option<Units>)
    ensures NoControls(Annotation(title))
  {
    if Given(title) {
      CleanAscii(" (");
      CleanAscii(")");
      TitleCloses(title.value);
      CleanConcat(Ascii(" ("), EscapeResourceTitle(title.value));
      CleanConcat(Ascii(" (") + EscapeResourceTitle(title.value), Ascii(")"));
    }
  }

  lemma LinkedIsClean(uri: Option<Units>)
    ensures NoControls(Linked(uri))
    ensures Given(uri) && NoControls(uri.value) ==> Linked(uri) == Ascii("] ") + uri.value
    ensures !Given(uri) ==> Linked(uri) == Ascii("]")
  {
    CleanAscii("] ");
    CleanAscii("]");
    if Given(uri) {
      EscapedMeaning(uri.value);
      CleanConcat(Ascii("] "), Escaped(uri.value));
    }
  }

  predicate EndsIn(text: Units, ending: Units) { |ending| <= |text| && text[|text| - |ending|..] == ending }

  lemma EndsWith(a: Units, b: Units)
    ensures EndsIn(a + b, b)
  {}

  /** A resource link is one line, and ends in its address if that has no control character. */
  lemma LinkIsOneLine(title: Option<Units>, uri: Option<Units>, text: Units)
    requires BlockText(ResourceLink(title, uri)) == Some(text)
    ensures NoControls(text)
    ensures Given(uri) && NoControls(uri.value) ==> EndsIn(text, Ascii("] ") + uri.value)
    ensures !Given(uri) ==> EndsIn(text, Ascii("]"))
  {
    var head := Ascii("[Resource link") + Annotation(title);
    CleanAscii("[Resource link");
    AnnotationIsClean(title);
    LinkedIsClean(uri);
    CleanConcat(Ascii("[Resource link"), Annotation(title));
    CleanConcat(head, Linked(uri));
    EndsWith(head, Linked(uri));
  }

  const LINK_OPENS := "[Resource link ("

  lemma BareLater(before: Units, e: Units, i: nat)
    requires i < |e| && before != [] && before[|before| - 1] != BACKSLASH
    ensures Bare(before + e, |before| + i) <==> Bare(e, i)
  {
    RunLater(before, e, i);
  }

  lemma {:induction false} RunLater(before: Units, e: Units, i: nat)
    requires i <= |e| && before != [] && before[|before| - 1] != BACKSLASH
    ensures Run(before + e, |before| + i) == Run(e, i)
  {
    if i > 0 { RunLater(before, e, i - 1); }
  }

  lemma BareBefore(e: Units, more: Units, i: nat)
    requires i < |e|
    ensures Bare(e + more, i) <==> Bare(e, i)
  {
    RunOfPrefix(e, more, i);
  }

  /** `close` is the place of the first bracket behind the opening one that a reader takes for itself. */
  ghost predicate ClosesFirst(text: Units, open: nat, close: nat) {
    open <= close < |text| && text[close] == 0x29 && Bare(text, close) && !SomeBare(text, open, close)
  }

  lemma ClosedInside(before: Units, t: Units, rest: Units)
    requires before != [] && before[|before| - 1] != BACKSLASH
    requires Bare(t + [0x29], |t|) && !SomeBare(t + [0x29], 0, |t|)
    ensures ClosesFirst(before + (t + [0x29]) + rest, |before|, |before| + |t|)
  {
    var inner, text := t + [0x29], before + (t + [0x29]) + rest;
    forall i: nat | i <= |t| ensures Bare(text, |before| + i) <==> Bare(inner, i) {
      BareLater(before, inner, i);
      BareBefore(before + inner, rest, |before| + i);
    }
    assert text[|before| + |t|] == inner[|t|] == 0x29;
    forall i: nat | |before| <= i < |before| + |t| ensures !Bare(text, i) {
      assert |before| + (i - |before|) == i && !Bare(inner, i - |before|);
    }
  }

  lemma Regrouped(a: Units, b: Units, c: Units, d: Units, e: Units)
    ensures a + (b + c + d) + e == a + b + (c + d) + e
  {}

  lemma OpeningText()
    ensures Ascii("[Resource link") + Ascii(" (") == Ascii(LINK_OPENS) && |Ascii(LINK_OPENS)| == 16
    ensures Ascii(LINK_OPENS)[15] != BACKSLASH && Ascii(")") == [0x29]
  {}

  lemma TitleShown(title: Units, open: Units, t: Units, rest: Units, text: Units)
    requires !SomeEscaped(title, 0, |title|) && Run(title, |title|) % 2 == 0 && t == EscapeResourceTitle(title)
    requires text == open + (t + [0x29]) + rest && rest != [] && open != [] && open[|open| - 1] != BACKSLASH
    ensures |open| + |t| < |text| && text[..|open|] == open && text[|open|..|open| + |t|] == t
    ensures ClosesFirst(text, |open|, |open| + |t|)
  {
    TitleCloses(title);
    ClosedInside(open, t, rest);
  }

  /** Behind the opening text, t is what a reader finds up to the closing parenthesis. */
  ghost predicate Shows(text: Units, open: Units, t: Units) {
    && |open| + |t| < |text| && text[..|open|] == open && text[|open|..|open| + |t|] == t
    && ClosesFirst(text, |open|, |open| + |t|)
  }

  lemma AnnotationParts(title: Units, rest: Units, open: Units, t: Units)
    requires title != [] && open == Ascii(LINK_OPENS) && t == EscapeResourceTitle(title)
    ensures Ascii("[Resource link") + Annotation(Some(title)) + rest == open + (t + [0x29]) + rest
    ensures open != [] && open[|open| - 1] != BACKSLASH
  {
    OpeningText();
    Regrouped(Ascii("[Resource link"), Ascii(" ("), t, Ascii(")"), rest);
  }

  lemma LinkedText(title: Option<Units>, uri: Option<Units>, rest: Units)
    requires rest == Linked(uri)
    ensures BlockText(ResourceLink(title, uri)) == Some(Ascii("[Resource link") + Annotation(title) + rest)
  {}

  /** A title that escapes no bracket itself and ends in no unpaired backslash is what a reader finds in parentheses. */
  lemma LinkShowsTitle(title: Units, uri: Option<Units>, text: Units, open: Units, t: Units)
    requires title != [] && !SomeEscaped(title, 0, |title|) && Run(title, |title|) % 2 == 0
    requires open == Ascii(LINK_OPENS) && t == EscapeResourceTitle(title)
    requires BlockText(ResourceLink(Some(title), uri)) == Some(text)
    ensures Shows(text, open, t)
  {
    var rest := Linked(uri);
    LinkedText(Some(title), uri, rest);
    AnnotationParts(title, rest, open, t);
    TitleShown(title, open, t, rest, text);
  }

  function Parts(prompt: seq<ContentBlock>): seq<Units> {
    if prompt == [] then []
    else
      var last := BlockText(prompt[|prompt| - 1]);
      Parts(prompt[..|prompt| - 1]) + if last.Some? then [last.value] else []
  }

  /** Texts and links always contribute, a resource if its text is not empty, and nothing else does. */
  predicate Contributes(block: ContentBlock) {
    || block.TextBlock? || block.ResourceLink?
    || (block.ResourceBlock? && block.content.Some? && block.content.value != [])
  }

  lemma ContributionIff(block: ContentBlock)
    ensures BlockText(block).Some? <==> Contributes(block)
    ensures block.TextBlock? ==> BlockText(block).value == block.text
    ensures block.ResourceBlock? && Contributes(block) ==> BlockText(block) == block.content
  {}

  /** The parts are the texts of the blocks at the places `ks`. */
  ghost predicate PartsOf(prompt: seq<ContentBlock>, ks: seq<nat>, parts: seq<Units>) {
    && |ks| == |parts| && (forall i, j :: 0 <= i < j < |ks| ==> ks[i] < ks[j])
    && forall i :: 0 <= i < |ks| ==> ks[i] < |prompt| && BlockText(prompt[ks[i]]) == Some(parts[i])
  }

  lemma PartsSnoc(prompt: seq<ContentBlock>, ks: seq<nat>, parts: seq<Units>, n: nat)
    requires PartsOf(prompt, ks, parts) && n < |prompt| && BlockText(prompt[n]).Some?
    requires forall k: nat :: k in ks ==> k < n
    ensures PartsOf(prompt, ks + [n], parts + [BlockText(prompt[n]).value])
  {
    assert forall i :: 0 <= i < |ks| ==> ks[i] in ks;
  }

  /** Exactly the contributing blocks have a part, in order. */
  lemma {:induction false} PartsInOrder(prompt: seq<ContentBlock>, n: nat) returns (ks: seq<nat>)
    requires n <= |prompt|
    ensures PartsOf(prompt, ks, Parts(prompt[..n]))
    ensures forall k: nat :: k in ks <==> k < n && Contributes(prompt[k])
  {
    ks := [];
    if n > 0 {
      ks := PartsInOrder(prompt, n - 1);
      assert prompt[..n][..n - 1] == prompt[..n - 1];
      ContributionIff(prompt[n - 1]);
      if Contributes(prompt[n - 1]) {
        PartsSnoc(prompt, ks, Parts(prompt[..n - 1]), n - 1);
        ks := ks + [n - 1];
      }
    }
  }

  lemma {:induction false} PartsExtend(prompt: seq<ContentBlock>, n: nat)
    requires n <= |prompt|
    ensures Parts(prompt[..n]) <= Parts(prompt)
  {
    if n == |prompt| {
      assert prompt[..n] == prompt;
    } else {
      PartsExtend(prompt[..|prompt| - 1], n);
      assert prompt[..|prompt| - 1][..n] == prompt[..n];
    }
  }

  /** The text is rejected exactly when there is some and it is longer than the limit. */
  predicate Exceeds(parts: seq<Units>, maxBytes: Option<int>) {
    maxBytes.Some? && parts != [] && ByteLength(Join(parts)) > maxBytes.value
  }

  lemma ExceedsStays(parts: seq<Units>, all: seq<Units>, maxBytes: Option<int>)
    requires parts <= all && Exceeds(parts, maxBytes)
    ensures Exceeds(all, maxBytes)
  {
    JoinGrows(parts, all[|parts|..]);
    assert parts + all[|parts|..] == all;
  }

  /** None stands for the thrown error. */
  method ExtractTextFromPrompt(prompt: seq<ContentBlock>, maxBytes: Option<int>) returns (r: Option<Units>)
    ensures r.None? <==> Exceeds(Parts(prompt), maxBytes)
    ensures r.Some? ==> r.value == Join(Parts(prompt))
  {
    var parts: seq<Units> := [];
    var totalBytes := 0;
    for n := 0 to |prompt|
      invariant parts == Parts(prompt[..n])
      invariant maxBytes.Some? ==> totalBytes == ByteLength(Join(parts))
      invariant !Exceeds(parts, maxBytes)
    {
      var blockText := BlockText(prompt[n]);
      assert prompt[..n + 1][..n] == prompt[..n];
      if blockText.Some? {
        JoinedLength(parts, blockText.value);
        if maxBytes.Some? {
          totalBytes := totalBytes + Separator(parts) + ByteLength(blockText.value);
          if totalBytes > maxBytes.value {
            PartsExtend(prompt, n + 1);
            ExceedsStays(parts + [blockText.value], Parts(prompt), maxBytes);
            return None;
          }
        }
        parts := parts + [blockText.value];
      }
    }
    assert prompt[..|prompt|] == prompt;
    r := Some(Join(parts));
  }
}
