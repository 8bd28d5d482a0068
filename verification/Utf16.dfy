/** Surrogate-safe slicing and truncation of UTF-16 text, against a code-point specification. */
module Utf16 {
  import opened Text

  type CodeUnit = n: nat | n < 0x10000

  predicate IsHigh(u: CodeUnit) { 0xD800 <= u <= 0xDBFF }

  predicate IsLow(u: CodeUnit) { 0xDC00 <= u <= 0xDFFF }

  // ---------------------------------------------------------------- code points

  /** How many units the first code point takes; a lone surrogate counts as a code point of its own. */
  function FirstLength(s: seq<CodeUnit>): (k: nat)
    requires s != []
    ensures 1 <= k <= 2 && k <= |s|
  {
    if |s| >= 2 && IsHigh(s[0]) && IsLow(s[1]) then 2 else 1
  }

  /** The text cut into code points (section 2 of RFC 2781). */
  function CodePoints(s: seq<CodeUnit>): seq<seq<CodeUnit>> {
    if s == [] then [] else [s[..FirstLength(s)]] + CodePoints(s[FirstLength(s)..])
  }

  function Concat(cs: seq<seq<CodeUnit>>): seq<CodeUnit> {
    if cs == [] then [] else cs[0] + Concat(cs[1..])
  }

  /** The code points determine the text. */
  lemma {:induction false} ConcatCodePoints(s: seq<CodeUnit>)
    ensures Concat(CodePoints(s)) == s
  {
    if s != [] {
      ConcatCodePoints(s[FirstLength(s)..]);
      assert s[..FirstLength(s)] + s[FirstLength(s)..] == s;
    }
  }

  ghost predicate WellFormed(s: seq<CodeUnit>) {
    forall c :: c in CodePoints(s) ==> |c| == 2 || (|c| == 1 && !IsHigh(c[0]) && !IsLow(c[0]))
  }

  /** The code points that lie wholly between the unit positions lo and hi. */
  function Within(cs: seq<seq<CodeUnit>>, lo: int, hi: int): seq<seq<CodeUnit>> {
    if cs == [] then []
    else PrependIf(lo <= 0 && |cs[0]| <= hi, cs[0], Within(cs[1..], lo - |cs[0]|, hi - |cs[0]|))
  }

  function PrependIf<T>(keep: bool, first: T, rest: seq<T>): seq<T> { if keep then [first] + rest else rest }

  lemma {:induction false} WithinMember(cs: seq<seq<CodeUnit>>, lo: int, hi: int, c: seq<CodeUnit>)
    ensures c in Within(cs, lo, hi) ==> c in cs
  {
    if cs != [] { WithinMember(cs[1..], lo - |cs[0]|, hi - |cs[0]|, c); }
  }

  // ---------------------------------------------------------------- slicing

  /** Position q lies inside a surrogate pair. */
  predicate Splits(s: seq<CodeUnit>, q: int) {
    0 < q < |s| && IsHigh(s[q - 1]) && IsLow(s[q])
  }

  function From(s: seq<CodeUnit>, lo: int): int {
    if Splits(s, lo) then lo + 1 else if lo < 0 then 0 else lo
  }

  function To(s: seq<CodeUnit>, hi: int): int {
    if Splits(s, hi) then hi - 1 else hi
  }

  /** `String.prototype.slice` with bounds in range. */
  function PlainSlice(s: seq<CodeUnit>, a: int, b: int): seq<CodeUnit>
    requires 0 <= a && b <= |s|
  {
    if a < b then s[a..b] else []
  }

  /** Slicing with both bounds moved off the pairs they split. */
  function SafeSlice(s: seq<CodeUnit>, lo: int, hi: int): seq<CodeUnit>
    requires hi <= |s|
  {
    PlainSlice(s, From(s, lo), To(s, hi))
  }

  lemma SplitsTail(s: seq<CodeUnit>, q: int)
    requires s != [] && q > FirstLength(s)
    ensures Splits(s, q) <==> Splits(s[FirstLength(s)..], q - FirstLength(s))
  {}

  lemma FirstNotSplit(s: seq<CodeUnit>)
    requires s != []
    ensures !Splits(s, FirstLength(s))
    ensures Splits(s, 1) <==> FirstLength(s) == 2
  {}

  lemma FirstOfSlice(s: seq<CodeUnit>, b: nat)
    requires s != [] && FirstLength(s) <= b <= |s|
    ensures CodePoints(s[..b]) == [s[..FirstLength(s)]] + CodePoints(s[FirstLength(s)..b])
  {
    var k := FirstLength(s);
    assert FirstLength(s[..b]) == k;
    assert s[..b][..k] == s[..k] && s[..b][k..] == s[k..b];
  }

  lemma SliceTail(s: seq<CodeUnit>, k: nat, a: int, b: int)
    requires k <= a && b <= |s| && k <= |s|
    ensures PlainSlice(s, a, b) == PlainSlice(s[k..], a - k, b - k)
  {
    if a < b { assert s[a..b] == s[k..][a - k..b - k]; }
  }

  lemma FromTail(s: seq<CodeUnit>, q: int)
    requires s != []
    ensures q <= 0 ==> From(s, q) == From(s[FirstLength(s)..], q - FirstLength(s)) == 0
    ensures q > 0 ==> From(s, q) == From(s[FirstLength(s)..], q - FirstLength(s)) + FirstLength(s)
  {
    FirstNotSplit(s);
    if q > FirstLength(s) { SplitsTail(s, q); }
  }

  lemma WithinFirst(s: seq<CodeUnit>, lo: int, hi: int)
    requires s != []
    ensures Within(CodePoints(s), lo, hi)
         == PrependIf(lo <= 0 && FirstLength(s) <= hi, s[..FirstLength(s)],
                      Within(CodePoints(s[FirstLength(s)..]), lo - FirstLength(s), hi - FirstLength(s)))
  {
    var k := FirstLength(s);
    var cs := CodePoints(s);
    assert cs[0] == s[..k] && cs[1..] == CodePoints(s[k..]);
  }

  lemma {:induction false} WithinNone(cs: seq<seq<CodeUnit>>, lo: int, hi: int)
    requires hi <= 0 && forall i :: 0 <= i < |cs| ==> cs[i] != []
    ensures Within(cs, lo, hi) == []
  {
    if cs != [] {
      assert cs[0] != [];
      WithinNone(cs[1..], lo - |cs[0]|, hi - |cs[0]|);
    }
  }

  lemma {:induction false} CodePointsNonEmpty(s: seq<CodeUnit>)
    ensures forall i :: 0 <= i < |CodePoints(s)| ==> CodePoints(s)[i] != []
  {
    if s != [] { CodePointsNonEmpty(s[FirstLength(s)..]); }
  }

  lemma KeepFirst(s: seq<CodeUnit>, b: int)
    requires s != [] && FirstLength(s) <= b <= |s|
    ensures CodePoints(PlainSlice(s, 0, b))
         == [s[..FirstLength(s)]] + CodePoints(PlainSlice(s[FirstLength(s)..], 0, b - FirstLength(s)))
  {
    FirstOfSlice(s, b);
    assert s[..b] == s[0..b];
    SliceTail(s, FirstLength(s), FirstLength(s), b);
    assert s[FirstLength(s)..b] == PlainSlice(s, FirstLength(s), b);
  }

  lemma SliceNothing(s: seq<CodeUnit>, lo: int, hi: int)
    requires hi <= 0
    ensures CodePoints(SafeSlice(s, lo, hi)) == [] && Within(CodePoints(s), lo, hi) == []
  {
    CodePointsNonEmpty(s);
    WithinNone(CodePoints(s), lo, hi);
  }

  /** Moving the bounds off the pairs they split keeps exactly the code points wholly inside. */
  lemma {:induction false} SliceKeepsWithin(s: seq<CodeUnit>, lo: int, hi: int) returns (kept: seq<seq<CodeUnit>>)
    requires hi <= |s|
    ensures kept == CodePoints(SafeSlice(s, lo, hi))
    ensures kept == Within(CodePoints(s), lo, hi)
    decreases |s|
  {
    if hi <= 0 {
      SliceNothing(s, lo, hi);
      kept := [];
    } else {
      kept := SliceKeepsWithin(s[FirstLength(s)..], lo - FirstLength(s), hi - FirstLength(s));
      kept := SliceStep(s, lo, hi, kept);
    }
  }

  /** What the moved bounds keep of the first code point and of the rest. */
  lemma SliceStep(s: seq<CodeUnit>, lo: int, hi: int, rest: seq<seq<CodeUnit>>) returns (kept: seq<seq<CodeUnit>>)
    requires s != [] && 0 < hi <= |s|
    requires rest == CodePoints(SafeSlice(s[FirstLength(s)..], lo - FirstLength(s), hi - FirstLength(s)))
    requires rest == Within(CodePoints(s[FirstLength(s)..]), lo - FirstLength(s), hi - FirstLength(s))
    ensures kept == CodePoints(SafeSlice(s, lo, hi))
    ensures kept == Within(CodePoints(s), lo, hi)
  {
    WithinFirst(s, lo, hi);
    SafeSliceFirst(s, lo, hi);
    kept := if hi < FirstLength(s) then [] else PrependIf(lo <= 0, s[..FirstLength(s)], rest);
  }

  lemma SafeSliceFirst(s: seq<CodeUnit>, lo: int, hi: int)
    requires s != [] && 0 < hi <= |s|
    ensures var k := FirstLength(s);
            var tail := SafeSlice(s[k..], lo - k, hi - k);
            if hi < k then SafeSlice(s, lo, hi) == [] == tail
            else CodePoints(SafeSlice(s, lo, hi)) == PrependIf(lo <= 0, s[..k], CodePoints(tail))
  {
    var k, a, b := FirstLength(s), From(s, lo), To(s, hi);
    FromTail(s, lo);
    if hi < k {
      ToNothing(s[k..], hi - k);
    } else if lo <= 0 {
      KeepFirst(s, b);
    } else {
      SliceTail(s, k, a, b);
    }
  }

  lemma ToNothing(s: seq<CodeUnit>, q: int)
    requires q < 0
    ensures To(s, q) < 0
  {}

  function Clamp(bound: int, length: nat): (r: int)
    ensures 0 <= r <= length
  {
    if bound < 0 then (if length + bound > 0 then length + bound else 0)
    else if bound < length then bound else length
  }

  /** The lower and upper end of the requested range, whatever the signs and order of the bounds. */
  function Range(length: nat, start: int, end: Option<int>): (int, int) {
    var from, to := Clamp(start, length), if end.None? then length else Clamp(end.value, length);
    if to < from then (to, from) else (from, to)
  }

  /** The code points of the text that lie wholly in the requested range. */
  function RequestedCodePoints(input: seq<CodeUnit>, start: int, end: Option<int>): seq<seq<CodeUnit>> {
    Within(CodePoints(input), Range(|input|, start, end).0, Range(|input|, start, end).1)
  }

  /** A bound from the end of the text. */
  lemma NegativeBounds(length: nat, start: int, end: Option<int>, back: int)
    requires 0 < back <= length
    ensures Range(length, -back, end) == Range(length, length - back, end)
    ensures Range(length, start, Some(-back)) == Range(length, start, Some(length - back))
  {}

  /** Bounds in order and in the text mean themselves; otherwise their order does not matter. */
  lemma PlainBounds(length: nat, start: int, end: int)
    ensures 0 <= start <= end <= length ==> Range(length, start, Some(end)) == (start, end)
    ensures Range(length, start, Some(end)) == Range(length, end, Some(start))
  {}

  /** Bounds beyond the text mean its ends, and a missing one its end. */
  lemma BoundsBeyond(length: nat, start: int, end: int, beyond: int)
    requires beyond >= length
    ensures Range(length, beyond, Some(end)) == Range(length, length, Some(end))
    ensures Range(length, -beyond, Some(end)) == Range(length, 0, Some(end))
    ensures Range(length, start, None) == Range(length, start, Some(length))
  {}

  method SliceUtf16Safe(input: seq<CodeUnit>, start: int, end: Option<int>) returns (r: seq<CodeUnit>)
    ensures CodePoints(r) == RequestedCodePoints(input, start, end)
    ensures r == Concat(RequestedCodePoints(input, start, end))
    ensures WellFormed(input) ==> WellFormed(r)
  {
    var len := |input|;
    var from := if start < 0 then Max(len + start, 0) else Min(start, len);
    var to := if end.None? then len else if end.value < 0 then Max(len + end.value, 0) else Min(end.value, len);
    if to < from {
      var tmp := from;
      from := to;
      to := tmp;
    }
    ghost var lo, hi := from, to;
    if from > 0 && from < len {
      var codeUnit := input[from];
      if IsLow(codeUnit) && IsHigh(input[from - 1]) {
        from := from + 1;
      }
    }
    if to > 0 && to < len {
      var codeUnit := input[to - 1];
      if IsHigh(codeUnit) && IsLow(input[to]) {
        to := to - 1;
      }
    }
    assert (lo, hi) == Range(len, start, end) && from == From(input, lo) && to == To(input, hi);
    r := PlainSlice(input, from, to);
    SliceIsWhole(input, start, end, lo, hi);
  }

  lemma SliceIsWhole(input: seq<CodeUnit>, start: int, end: Option<int>, lo: int, hi: int)
    requires (lo, hi) == Range(|input|, start, end) && hi <= |input|
    ensures CodePoints(SafeSlice(input, lo, hi)) == RequestedCodePoints(input, start, end)
    ensures SafeSlice(input, lo, hi) == Concat(RequestedCodePoints(input, start, end))
    ensures WellFormed(input) ==> WellFormed(SafeSlice(input, lo, hi))
  {
    var kept := SliceKeepsWithin(input, lo, hi);
    ConcatCodePoints(SafeSlice(input, lo, hi));
    forall c | c in kept ensures c in CodePoints(input) { WithinMember(CodePoints(input), lo, hi, c); }
  }

  function Max(a: int, b: int): int { if a < b then b else a }

  function Min(a: int, b: int): int { if a < b then a else b }

  // ---------------------------------------------------------------- truncation

  /** The code points that fit into the first `maxLen` units. */
  function Truncated(input: seq<CodeUnit>, maxLen: int): seq<CodeUnit> {
    Concat(Within(CodePoints(input), 0, Max(0, maxLen)))
  }

  method TruncateUtf16Safe(input: seq<CodeUnit>, maxLen: int) returns (r: seq<CodeUnit>)
    ensures r == Truncated(input, maxLen)
    ensures WellFormed(input) ==> WellFormed(r)
    ensures r <= input && |r| <= Max(0, maxLen)
    ensures |input| <= maxLen ==> r == input
    ensures maxLen < |input| ==> |r| >= maxLen - 1
  {
    var limit := Max(0, maxLen);
    TruncatedIsPrefix(input, maxLen);
    if |input| <= limit { return input; }
    r := SliceUtf16Safe(input, 0, Some(limit));
  }

  lemma {:induction false} WithinAll(cs: seq<seq<CodeUnit>>, hi: int)
    requires |Concat(cs)| <= hi
    ensures Within(cs, 0, hi) == cs
    ensures forall lo :: lo < 0 ==> Within(cs, lo, hi) == cs
  {
    if cs != [] {
      WithinAll(cs[1..], hi - |cs[0]|);
      assert Within(cs[1..], -|cs[0]|, hi - |cs[0]|) == cs[1..];
    }
  }

  lemma TruncatedIsPrefix(input: seq<CodeUnit>, maxLen: int)
    ensures Truncated(input, maxLen)
         == if |input| <= Max(0, maxLen) then input else input[..To(input, Max(0, maxLen))]
  {
    var limit := Max(0, maxLen);
    if |input| <= limit {
      ConcatCodePoints(input);
      WithinAll(CodePoints(input), limit);
    } else {
      var kept := SliceKeepsWithin(input, 0, limit);
      ConcatCodePoints(PlainSlice(input, From(input, 0), To(input, limit)));
    }
  }

  /** Truncating twice is truncating to the smaller limit. */
  lemma TruncateTwice(input: seq<CodeUnit>, n: int, m: int)
    ensures Truncated(Truncated(input, n), m) == Truncated(input, Min(n, m))
  {
    TruncatedIsPrefix(input, n);
    TruncatedIsPrefix(input, Min(n, m));
    TruncatedIsPrefix(Truncated(input, n), m);
  }
}
