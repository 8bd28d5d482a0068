/** String operations of the Go and TypeScript standard libraries that the other modules rely on. */
module Text {
  datatype Option<+T> = None | Some(value: T)

  // ---------------------------------------------------------------- searching

  predicate OccursAt(text: string, i: nat, part: string) {
    i + |part| <= |text| && text[i..i + |part|] == part
  }

  ghost predicate Contains(text: string, part: string) {
    exists i :: OccursAt(text, i, part)
  }

  lemma OccursChar(text: string, i: nat, part: string, j: nat)
    requires j < |part|
    ensures OccursAt(text, i, part) ==> i + j < |text| && text[i + j] == part[j]
  {
    if OccursAt(text, i, part) {
      assert text[i..i + |part|][j] == text[i + j];
    }
  }

  lemma SliceSlice(a: string, lo: nat, hi: nat, j: nat, k: nat)
    requires lo <= hi <= |a| && j <= k <= hi - lo
    ensures a[lo..hi][j..k] == a[lo + j..lo + k]
  {
    var x, y := a[lo..hi][j..k], a[lo + j..lo + k];
    assert |x| == |y| && forall i :: 0 <= i < |x| ==> x[i] == y[i];
  }

  lemma OccursTrans(a: string, i: nat, b: string, j: nat, c: string)
    requires OccursAt(a, i, b) && OccursAt(b, j, c)
    ensures OccursAt(a, i + j, c)
  {
    SliceSlice(a, i, i + |b|, j, j + |c|);
  }

  lemma ContainsTrans(a: string, b: string, c: string)
    requires Contains(a, b) && Contains(b, c)
    ensures Contains(a, c)
  {
    var i: nat :| OccursAt(a, i, b);
    var j: nat :| OccursAt(b, j, c);
    OccursTrans(a, i, b, j, c);
  }

  /** The first position of `part` at or after `from`, as `strings.Index` finds it. */
  function IndexFrom(text: string, from: nat, part: string): (r: Option<nat>)
    ensures r.Some? ==> from <= r.value && OccursAt(text, r.value, part)
    ensures r.Some? ==> forall i :: from <= i < r.value ==> !OccursAt(text, i, part)
    ensures r.None? ==> forall i :: from <= i ==> !OccursAt(text, i, part)
    decreases |text| - from
  {
    if from + |part| > |text| then None
    else if OccursAt(text, from, part) then Some(from)
    else IndexFrom(text, from + 1, part)
  }

  lemma IndexIs(text: string, from: nat, part: string, at: nat)
    requires from <= at && OccursAt(text, at, part)
    requires forall i :: from <= i < at ==> !OccursAt(text, i, part)
    ensures IndexFrom(text, from, part) == Some(at)
  {}

  /** The first occurrence from `from` on. */
  ghost predicate FirstAt(text: string, from: nat, part: string, at: nat) {
    from <= at && OccursAt(text, at, part) && forall i :: from <= i < at ==> !OccursAt(text, i, part)
  }

  predicate HasPrefix(text: string, prefix: string) {
    |prefix| <= |text| && text[..|prefix|] == prefix
  }

  /** `strings.ReplaceAll` for a non-empty `old`. */
  function ReplaceAll(text: string, part: string, with: string): string
    requires part != ""
    decreases |text|
  {
    if text == "" then ""
    else if HasPrefix(text, part) then with + ReplaceAll(text[|part|..], part, with)
    else [text[0]] + ReplaceAll(text[1..], part, with)
  }

  lemma TailOccurs(text: string, i: nat, part: string)
    requires text != "" && OccursAt(text[1..], i, part)
    ensures OccursAt(text, i + 1, part)
  {
    assert text[1..][i..i + |part|] == text[i + 1..i + 1 + |part|];
  }

  lemma {:induction false} ReplaceAbsent(text: string, part: string, with: string)
    requires part != "" && !Contains(text, part)
    ensures ReplaceAll(text, part, with) == text
    decreases |text|
  {
    if text != "" {
      assert HasPrefix(text, part) ==> OccursAt(text, 0, part);
      forall i: nat | OccursAt(text[1..], i, part) ensures OccursAt(text, i + 1, part) {
        TailOccurs(text, i, part);
      }
      ReplaceAbsent(text[1..], part, with);
    }
  }

  // ---------------------------------------------------------------- decimal numerals

  predicate IsDigit(c: char) { '0' <= c <= '9' }

  function Digit(d: nat): (c: char)
    requires d < 10
    ensures IsDigit(c) && c as int - '0' as int == d
  {
    ('0' as int + d) as char
  }

  function Decimal(n: nat): (s: string)
    ensures s != "" && forall i :: 0 <= i < |s| ==> IsDigit(s[i])
  {
    if n < 10 then [Digit(n)] else Decimal(n / 10) + [Digit(n % 10)]
  }

  function DecimalValue(s: string): int {
    if s == "" then 0 else 10 * DecimalValue(s[..|s| - 1]) + (s[|s| - 1] as int - '0' as int)
  }

  lemma {:induction false} DecimalRoundTrip(n: nat)
    ensures DecimalValue(Decimal(n)) == n
  {
    if n < 10 {
      assert Decimal(n)[..0] == "";
    } else {
      DecimalRoundTrip(n / 10);
      assert Decimal(n)[..|Decimal(n)| - 1] == Decimal(n / 10);
    }
  }

  lemma DecimalInjective(m: nat, n: nat)
    requires Decimal(m) == Decimal(n)
    ensures m == n
  {
    DecimalRoundTrip(m);
    DecimalRoundTrip(n);
  }

  lemma {:induction false} DecimalLength(n: nat, digits: nat)
    requires digits >= 1 && n >= Pow10(digits - 1)
    ensures |Decimal(n)| >= digits
  {
    if digits > 1 {
      DecimalLength(n / 10, digits - 1);
    }
  }

  function Pow10(e: nat): nat {
    if e == 0 then 1 else 10 * Pow10(e - 1)
  }

  // ---------------------------------------------------------------- white space

  /** `unicode.IsSpace`. */
  predicate IsSpace(c: char) {
    var u := c as int;
    || 0x09 <= u <= 0x0D || u == 0x20 || u == 0x85 || u == 0xA0 || u == 0x1680 || 0x2000 <= u <= 0x200A
    || u == 0x2028 || u == 0x2029 || u == 0x202F || u == 0x205F || u == 0x3000
  }

  /** Tab to carriage return, the blank, and the spaces and separators beyond ASCII. */
  lemma SpacesAre(c: char)
    ensures IsSpace(c)
       <==> || c in "\t\n\U{0B}\U{0C}\r \U{85}\U{A0}\U{1680}\U{2028}\U{2029}\U{202F}\U{205F}\U{3000}"
            || c in "\U{2000}\U{2001}\U{2002}\U{2003}\U{2004}\U{2005}\U{2006}\U{2007}\U{2008}\U{2009}\U{200A}"
  {}

  predicate IsBlank(text: string) {
    forall i :: 0 <= i < |text| ==> IsSpace(text[i])
  }

  function TrimLeft(text: string): string {
    if text != "" && IsSpace(text[0]) then TrimLeft(text[1..]) else text
  }

  function TrimRight(text: string): string {
    if text != "" && IsSpace(text[|text| - 1]) then TrimRight(text[..|text| - 1]) else text
  }

  /** `strings.TrimSpace`. */
  function TrimSpace(text: string): string { TrimRight(TrimLeft(text)) }

  predicate Trimmed(text: string) {
    text == "" || (!IsSpace(text[0]) && !IsSpace(text[|text| - 1]))
  }

  lemma {:induction false} TrimLeftMeaning(text: string)
    ensures |TrimLeft(text)| <= |text| && TrimLeft(text) == text[|text| - |TrimLeft(text)|..]
    ensures IsBlank(text[..|text| - |TrimLeft(text)|])
    ensures TrimLeft(text) != "" ==> !IsSpace(TrimLeft(text)[0])
  {
    if text != "" && IsSpace(text[0]) {
      TrimLeftMeaning(text[1..]);
      var k := |text| - |TrimLeft(text)|;
      assert text[..k] == [text[0]] + text[1..][..k - 1];
    }
  }

  lemma {:induction false} TrimRightMeaning(text: string)
    ensures |TrimRight(text)| <= |text| && TrimRight(text) == text[..|TrimRight(text)|]
    ensures IsBlank(text[|TrimRight(text)|..])
    ensures TrimRight(text) != "" ==> !IsSpace(TrimRight(text)[|TrimRight(text)| - 1])
  {
    if text != "" && IsSpace(text[|text| - 1]) {
      TrimRightMeaning(text[..|text| - 1]);
      var k := |TrimRight(text)|;
      assert text[k..] == text[..|text| - 1][k..] + [text[|text| - 1]];
    }
  }

  /** Trimming keeps a middle part, drops only white space, and stops at non-space on both sides. */
  lemma TrimSpaceMeaning(text: string) returns (i: nat, k: nat)
    ensures i <= k <= |text| && TrimSpace(text) == text[i..k]
    ensures IsBlank(text[..i]) && IsBlank(text[k..])
    ensures Trimmed(TrimSpace(text))
    ensures TrimSpace(text) == "" <==> IsBlank(text)
  {
    TrimLeftMeaning(text);
    var left := TrimLeft(text);
    TrimRightMeaning(left);
    var kept := TrimRight(left);
    i := |text| - |left|;
    k := i + |kept|;
    assert text[k..] == left[|kept|..];
    assert kept == text[i..k];
    if kept == "" {
      assert text == text[..i] + text[k..];
    } else {
      assert kept[0] == left[0] == text[i];
    }
  }

  lemma TrimmedIsFixed(text: string)
    ensures TrimSpace(text) == text <==> Trimmed(text)
    ensures TrimSpace(text) != text ==> |TrimSpace(text)| < |text|
  {
    var i, k := TrimSpaceMeaning(text);
  }

  // ---------------------------------------------------------------- white space of JavaScript

  /** White space as `String.prototype.trim` knows it. */
  predicate IsJsSpace(c: char) {
    (IsSpace(c) && c as int != 0x85) || c as int == 0xFEFF
  }

  function JsTrimLeft(text: string): string {
    if text != "" && IsJsSpace(text[0]) then JsTrimLeft(text[1..]) else text
  }

  function JsTrim(text: string): string {
    if text != "" && IsJsSpace(text[|text| - 1]) then JsTrim(text[..|text| - 1]) else JsTrimLeft(text)
  }

  predicate JsTrimmed(text: string) {
    text == "" || (!IsJsSpace(text[0]) && !IsJsSpace(text[|text| - 1]))
  }

  lemma {:induction false} JsTrimLeftMeaning(text: string)
    ensures JsTrimLeft(text) != "" ==> !IsJsSpace(JsTrimLeft(text)[0])
    ensures text != "" && !IsJsSpace(text[|text| - 1])
        ==> JsTrimLeft(text) != "" && JsTrimLeft(text)[|JsTrimLeft(text)| - 1] == text[|text| - 1]
  {
    if text != "" && IsJsSpace(text[0]) { JsTrimLeftMeaning(text[1..]); }
  }

  /** Trimmed text is what trimming leaves alone, and trimming yields trimmed text. */
  lemma {:induction false} JsTrimIsTrimmed(text: string)
    ensures JsTrimmed(JsTrim(text))
    ensures JsTrimmed(text) ==> JsTrim(text) == text
  {
    if text != "" && IsJsSpace(text[|text| - 1]) {
      JsTrimIsTrimmed(text[..|text| - 1]);
    } else {
      JsTrimLeftMeaning(text);
    }
  }

  predicate IsJsBlank(text: string) { forall c :: c in text ==> IsJsSpace(c) }

  lemma {:induction false} JsTrimLeftParts(text: string) returns (left: string)
    ensures text == left + JsTrimLeft(text) && IsJsBlank(left)
  {
    left := "";
    if text != "" && IsJsSpace(text[0]) {
      left := JsTrimLeftParts(text[1..]);
      assert text == [text[0]] + text[1..];
      left := [text[0]] + left;
    }
  }

  /** Only white space is trimmed. */
  lemma {:induction false} JsTrimParts(text: string) returns (left: string, right: string)
    ensures text == left + JsTrim(text) + right && IsJsBlank(left) && IsJsBlank(right)
  {
    if text != "" && IsJsSpace(text[|text| - 1]) {
      left, right := JsTrimParts(text[..|text| - 1]);
      assert text == text[..|text| - 1] + [text[|text| - 1]];
      right := right + [text[|text| - 1]];
    } else {
      left := JsTrimLeftParts(text);
      right := "";
    }
  }

  lemma {:induction false} JsTrimLeftOf(left: string, t: string)
    requires IsJsBlank(left) && (t != "" ==> !IsJsSpace(t[0]))
    ensures JsTrimLeft(left + t) == t
  {
    if left == "" {
      assert left + t == t;
    } else {
      assert (left + t)[0] in left && (left + t)[1..] == left[1..] + t;
      JsTrimLeftOf(left[1..], t);
    }
  }

  /** Trimming finds the trimmed text that stands between white space. */
  lemma {:induction false} JsTrimOf(left: string, t: string, right: string)
    requires IsJsBlank(left) && IsJsBlank(right) && JsTrimmed(t)
    ensures JsTrim(left + t + right) == t
    decreases |left| + |right|
  {
    var text := left + t + right;
    if right != "" {
      assert text[|text| - 1] in right && text[..|text| - 1] == left + t + right[..|right| - 1];
      JsTrimOf(left, t, right[..|right| - 1]);
    } else if t == "" && left != "" {
      assert text[|text| - 1] in left && text[..|text| - 1] == left[..|left| - 1] + t + right;
      JsTrimOf(left[..|left| - 1], t, right);
    } else {
      assert text == left + t;
      JsTrimLeftOf(left, t);
    }
  }
}
