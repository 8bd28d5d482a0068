/** Lists of distinct strings in sorted order: the one such list for every set. */
module SortedNames {
  import opened Text

  /** The order of `sort.Strings` and `toSorted`. */
  predicate Less(a: string, b: string) {
    b != "" && (a == "" || a[0] < b[0] || (a[0] == b[0] && Less(a[1..], b[1..])))
  }

  lemma {:induction false} LessTotal(a: string, b: string)
    ensures Less(a, b) || Less(b, a) || a == b
    ensures !(Less(a, b) && Less(b, a)) && !Less(a, a)
    decreases |a|
  {
    if a != "" {
      LessTotal(a[1..], a[1..]);
      if b != "" {
        LessTotal(a[1..], b[1..]);
        assert a == [a[0]] + a[1..] && b == [b[0]] + b[1..];
      }
    }
  }

  lemma {:induction false} LessTransitive(a: string, b: string, c: string)
    requires Less(a, b) && Less(b, c)
    ensures Less(a, c)
  {
    if a != "" && a[0] == b[0] == c[0] { LessTransitive(a[1..], b[1..], c[1..]); }
  }

  ghost predicate IsSorted(list: seq<string>, s: set<string>) {
    && (forall x :: x in s <==> x in list)
    && forall i, j :: 0 <= i < j < |list| ==> Less(list[i], list[j])
  }

  /** A set of strings is sorted in one way only. */
  lemma {:induction false} SortedIsUnique(a: seq<string>, b: seq<string>, s: set<string>)
    requires IsSorted(a, s) && IsSorted(b, s)
    ensures a == b
    decreases |a|
  {
    assert b != [] ==> b[0] in b;
    if a != [] {
      assert a[0] in s && b != [];
      FirstAgree(a, b, s);
      TailIsSorted(a, s);
      TailIsSorted(b, s);
      SortedIsUnique(a[1..], b[1..], s - {a[0]});
      assert a == [a[0]] + a[1..] && b == [b[0]] + b[1..];
    }
  }

  lemma FirstAgree(a: seq<string>, b: seq<string>, s: set<string>)
    requires IsSorted(a, s) && IsSorted(b, s) && a != [] && b != []
    ensures a[0] == b[0]
  {
    assert a[0] in s && b[0] in s;
    var i :| 0 <= i < |b| && b[i] == a[0];
    var j :| 0 <= j < |a| && a[j] == b[0];
    LessTotal(a[0], b[0]);
  }

  lemma TailIsSorted(a: seq<string>, s: set<string>)
    requires IsSorted(a, s) && a != []
    ensures IsSorted(a[1..], s - {a[0]})
  {
    forall x ensures x in s - {a[0]} <==> x in a[1..] {
      LessTotal(a[0], a[0]);
      if x in s && x != a[0] {
        var i :| 0 <= i < |a| && a[i] == x;
        assert a[1..][i - 1] == x;
      }
    }
  }

  // ---------------------------------------------------------------- uniqSorted

  /** The names in a list: trimmed, without the blank ones. */
  function Names(values: seq<string>): set<string> {
    set v | v in values && JsTrim(v) != "" :: JsTrim(v)
  }

  function Inserted(list: seq<string>, x: string): seq<string> {
    if list == [] then [x]
    else if x == list[0] then list
    else if Less(x, list[0]) then [x] + list
    else [list[0]] + Inserted(list[1..], x)
  }

  lemma {:induction false} InsertedIsSorted(list: seq<string>, s: set<string>, x: string)
    requires IsSorted(list, s)
    ensures IsSorted(Inserted(list, x), s + {x})
    decreases |list|
  {
    if list != [] {
      if x == list[0] {
        assert x in list;
      } else if Less(x, list[0]) {
        var r := [x] + list;
        forall j | 0 < j < |r| ensures Less(x, r[j]) {
          if j > 1 { LessTransitive(x, list[0], r[j]); }
        }
        assert forall y :: y in r <==> y == x || y in list;
      } else {
        LessTotal(x, list[0]);
        assert list[0] in list;
        TailIsSorted(list, s);
        InsertedIsSorted(list[1..], s - {list[0]}, x);
        InsertedBehind(list, s, x);
      }
    }
  }

  lemma InsertedBehind(list: seq<string>, s: set<string>, x: string)
    requires IsSorted(list, s) && list != [] && Less(list[0], x)
    requires IsSorted(Inserted(list[1..], x), s - {list[0]} + {x})
    ensures IsSorted([list[0]] + Inserted(list[1..], x), s + {x})
  {
    var tail := Inserted(list[1..], x);
    var r := [list[0]] + tail;
    assert list[0] in list;
    forall j | 0 < j < |r| ensures Less(list[0], r[j]) {
      assert r[j] in tail;
      if r[j] != x {
        var i :| 0 <= i < |list| && list[i] == r[j];
      }
    }
    assert forall y :: y in r <==> y == list[0] || y in tail;
  }

  /** `uniqSorted`: trimmed, without blanks and doubles, in order. */
  function UniqSorted(values: seq<string>): (r: seq<string>)
    ensures IsSorted(r, Names(values))
  {
    if values == [] then []
    else
      var init, last := values[..|values| - 1], values[|values| - 1];
      assert values == init + [last];
      if JsTrim(last) == "" then
        assert Names(values) == Names(init);
        UniqSorted(init)
      else
        assert Names(values) == Names(init) + {JsTrim(last)};
        InsertedIsSorted(UniqSorted(init), Names(init), JsTrim(last));
        Inserted(UniqSorted(init), JsTrim(last))
  }

  /** The result stands for the set of names: equal exactly for lists with the same names. */
  lemma UniqSortedIsCanonical(a: seq<string>, b: seq<string>)
    ensures UniqSorted(a) == UniqSorted(b) <==> Names(a) == Names(b)
    ensures Names(UniqSorted(a)) == Names(a) && UniqSorted(UniqSorted(a)) == UniqSorted(a)
  {
    if UniqSorted(a) == UniqSorted(b) {
      assert Names(a) == Names(b) by { assert forall x :: x in Names(a) <==> x in Names(b); }
    }
    if Names(a) == Names(b) { SortedIsUnique(UniqSorted(a), UniqSorted(b), Names(a)); }
    NamesAreTrimmed(UniqSorted(a), Names(a), a);
    SortedIsUnique(UniqSorted(a), UniqSorted(UniqSorted(a)), Names(a));
  }

  /** A list whose members are names has those names. */
  lemma NamesAreTrimmed(list: seq<string>, s: set<string>, values: seq<string>)
    requires s <= Names(values) && forall x :: x in s <==> x in list
    ensures Names(list) == s
  {
    forall x | x in list ensures JsTrim(x) == x && x != "" {
      var v :| v in values && JsTrim(v) != "" && JsTrim(v) == x;
      JsTrimIsTrimmed(v);
      JsTrimIsTrimmed(x);
    }
  }
}
