/** The deduplicating map of tool-call locations: what it ends up holding depends only on the facts added. */
module LocationMaps {
  import opened Text

  // ---------------------------------------------------------------- locations

  datatype Location = Location(path: string, line: Option<nat>)

  /** The map key of a location. */
  function KeyOf(l: Location): string {
    l.path + ":" + if l.line.Some? then Decimal(l.line.value) else ""
  }

  lemma KeySplits(l: Location)
    ensures KeyOf(l)[|l.path|] == ':'
    ensures KeyOf(l)[..|l.path|] == l.path
    ensures KeyOf(l)[|l.path| + 1..] == if l.line.Some? then Decimal(l.line.value) else ""
    ensures forall i :: |l.path| < i < |KeyOf(l)| ==> KeyOf(l)[i] != ':'
  {
    var suffix := if l.line.Some? then Decimal(l.line.value) else "";
    assert forall i :: |l.path| < i < |KeyOf(l)| ==> KeyOf(l)[i] == suffix[i - |l.path| - 1];
  }

  /** Map keys determine path and line. */
  lemma KeyInjective(a: Location, b: Location)
    requires KeyOf(a) == KeyOf(b)
    ensures a == b
  {
    KeySplits(a);
    KeySplits(b);
    assert |a.path| == |b.path|;
    if a.line.Some? && b.line.Some? { DecimalInjective(a.line.value, b.line.value); }
  }

  /** An entry of the map, in insertion order. */
  datatype Entry = Entry(key: string, value: Location)

  /** Keys belong to their locations and are distinct, and a path known with a line has no bare entry. */
  ghost predicate IsMap(es: seq<Entry>) {
    && (forall i :: 0 <= i < |es| ==> es[i].key == KeyOf(es[i].value))
    && (forall i, k :: 0 <= i < k < |es| ==> es[i].key != es[k].key)
    && (forall i, k :: 0 <= i < |es| && 0 <= k < |es| && es[i].value.path == es[k].value.path && es[i].value.line.None?
          ==> es[k].value.line.None?)
  }

  function Locations(es: seq<Entry>): set<Location> { set e | e in es :: e.value }

  /** The walk over the present entries: what is left of them, and whether to stop there. */
  function Scan(es: seq<Entry>, i: nat, l: Location): (seq<Entry>, bool)
    requires i <= |es|
    decreases |es| - i
  {
    if i == |es| then (es, false)
    else if es[i].value.path != l.path then Scan(es, i + 1, l)
    else if l.line.None? || es[i].value.line == l.line then (es, true)
    else if es[i].value.line.None? then Scan(es[..i] + es[i + 1..], i, l)
    else Scan(es, i + 1, l)
  }

  predicate HasKey(es: seq<Entry>, key: string) {
    exists i :: 0 <= i < |es| && es[i].key == key
  }

  function Insert(es: seq<Entry>, l: Location): seq<Entry> {
    var (left, stop) := Scan(es, 0, l);
    if stop || HasKey(left, KeyOf(l)) then left else left + [Entry(KeyOf(l), l)]
  }

  /** Adding one fact to a set of locations. */
  function Learn(s: set<Location>, l: Location): set<Location> {
    if l in s || (l.line.None? && exists k :: k in s && k.path == l.path) then s
    else s - {Location(l.path, None)} + {l}
  }

  /** Nothing before i concerns the path with a line that would stop the scan. */
  ghost predicate Passed(es: seq<Entry>, i: nat, l: Location)
    requires i <= |es|
  {
    forall k :: 0 <= k < i && es[k].value.path == l.path
        ==> l.line.Some? && es[k].value.line.Some? && es[k].value.line != l.line
  }

  lemma {:induction false} ScanMeaning(es: seq<Entry>, i: nat, l: Location)
    requires IsMap(es) && i <= |es| && Passed(es, i, l)
    ensures var (left, stop) := Scan(es, i, l);
            && IsMap(left)
            && (stop <==> l in Locations(es) || (l.line.None? && exists k :: k in Locations(es) && k.path == l.path))
            && Locations(left) == (if stop then Locations(es) else Locations(es) - {Location(l.path, None)})
            && (!stop ==> Passed(left, |left|, l))
    decreases |es| - i
  {
    if i == |es| {
      forall k | k in Locations(es) && k.path == l.path ensures l.line.Some? && k.line.Some? && k != l {
        var e :| e in es && e.value == k;
        var j :| 0 <= j < |es| && es[j] == e;
      }
    } else {
      var e := es[i];
      assert e.value in Locations(es);
      if e.value.path != l.path {
        ScanMeaning(es, i + 1, l);
      } else if l.line.None? || e.value.line == l.line {
      } else if e.value.line.None? {
        var rest := BareDropped(es, i, l);
        ScanMeaning(rest, i, l);
      } else {
        ScanMeaning(es, i + 1, l);
      }
    }
  }

  /** The bare entry makes way for one with a line; nothing else changes. */
  lemma BareDropped(es: seq<Entry>, i: nat, l: Location) returns (rest: seq<Entry>)
    requires IsMap(es) && i < |es| && Passed(es, i, l) && es[i].value == Location(l.path, None) && l.line.Some?
    ensures rest == es[..i] + es[i + 1..] && IsMap(rest) && Passed(rest, i, l)
    ensures Locations(rest) == Locations(es) - {es[i].value} && l !in Locations(es)
  {
    rest := es[..i] + es[i + 1..];
    assert forall k :: 0 <= k < i ==> rest[k] == es[k];
    OnlyBare(es, i, l);
  }

  /** A bare entry is the only entry of its path. */
  lemma OnlyBare(es: seq<Entry>, i: nat, l: Location)
    requires IsMap(es) && i < |es| && es[i].value == Location(l.path, None) && l.line.Some?
    ensures l !in Locations(es)
  {
    assert forall k :: 0 <= k < |es| ==> es[k].value != l;
  }

  lemma KeyIsNew(es: seq<Entry>, l: Location)
    requires IsMap(es) && l !in Locations(es)
    ensures !HasKey(es, KeyOf(l))
  {
    forall i | 0 <= i < |es| ensures es[i].key != KeyOf(l) {
      assert es[i].value in Locations(es);
      if es[i].key == KeyOf(l) { KeyInjective(es[i].value, l); }
    }
  }

  /** One insertion learns one fact. */
  lemma InsertLearns(es: seq<Entry>, l: Location)
    requires IsMap(es)
    ensures IsMap(Insert(es, l)) && Locations(Insert(es, l)) == Learn(Locations(es), l)
  {
    ScanMeaning(es, 0, l);
    var (left, stop) := Scan(es, 0, l);
    if !stop {
      KeyIsNew(left, l);
    }
  }

  function InsertAll(es: seq<Entry>, ls: seq<Location>): seq<Entry> {
    if ls == [] then es else Insert(InsertAll(es, ls[..|ls| - 1]), ls[|ls| - 1])
  }

  /** Every known line of a path, or its bare entry if no line is known. */
  function Canonical(facts: set<Location>): set<Location> {
    set l | l in facts && (l.line.None? ==> forall k :: k in facts && k.path == l.path ==> k.line.None?)
  }

  lemma CanonicalLearns(facts: set<Location>, l: Location)
    ensures Canonical(facts + {l}) == Learn(Canonical(facts), l)
  {
    var s, all := Canonical(facts), facts + {l};
    if k :| k in facts && k.path == l.path {
      PathKept(facts, k);
    }
    forall m ensures m in Canonical(all) <==> m in Learn(s, l) {
      assert l in all;
      if m in Canonical(all) && m != l { assert m in facts; }
    }
  }

  /** No path is lost: each path of the facts keeps a location. */
  lemma PathKept(facts: set<Location>, k: Location)
    requires k in facts
    ensures exists m :: m in Canonical(facts) && m.path == k.path
  {
    if m :| m in facts && m.path == k.path && m.line.Some? {
      assert m in Canonical(facts);
    } else {
      assert k in Canonical(facts);
    }
  }

  /** The final locations are the canonical form of the set of facts added, in whatever order. */
  lemma {:induction false} InsertAllIsCanonical(ls: seq<Location>)
    ensures IsMap(InsertAll([], ls)) && Locations(InsertAll([], ls)) == Canonical((set l | l in ls))
  {
    if ls != [] {
      var before, last := ls[..|ls| - 1], ls[|ls| - 1];
      InsertAllIsCanonical(before);
      InsertLearns(InsertAll([], before), last);
      CanonicalLearns((set l | l in before), last);
      assert (set l | l in ls) == (set l | l in before) + {last};
    }
  }

  lemma OrderDoesNotMatter(a: seq<Location>, b: seq<Location>)
    requires forall l :: l in a <==> l in b
    ensures Locations(InsertAll([], a)) == Locations(InsertAll([], b))
  {
    InsertAllIsCanonical(a);
    InsertAllIsCanonical(b);
    assert (set l | l in a) == (set l | l in b);
  }

  lemma {:induction false} InsertAllAppend(es: seq<Entry>, a: seq<Location>, b: seq<Location>)
    ensures InsertAll(es, a + b) == InsertAll(InsertAll(es, a), b)
  {
    if b == [] { assert a + b == a; }
    else {
      assert (a + b)[..|a + b| - 1] == a + b[..|b| - 1];
      InsertAllAppend(es, a, b[..|b| - 1]);
    }
  }

  class LocationMap {
    var entries: seq<Entry>

    constructor ()
      ensures entries == []
    {
      entries := [];
    }

    method Add(l: Location)
      modifies this
      ensures entries == Insert(old(entries), l)
    {
      var i := 0;
      while i < |entries|
        invariant i <= |entries|
        invariant Scan(entries, i, l) == Scan(old(entries), 0, l)
        decreases |entries| - i
      {
        if entries[i].value.path != l.path {
          i := i + 1;
          continue;
        }
        if l.line.None? || entries[i].value.line == l.line { return; }
        if entries[i].value.line.None? {
          entries := entries[..i] + entries[i + 1..];
        } else {
          i := i + 1;
        }
      }
      var key := KeyOf(l);
      if exists k :: 0 <= k < |entries| && entries[k].key == key { return; }
      entries := entries + [Entry(key, l)];
    }
  }
}
