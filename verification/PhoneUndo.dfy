/** Undoing temporary grants: single steps and whole runs. */
module PhoneUndo {
  import opened Text
  import opened SortedNames
  import opened PhoneControl

  // ---------------------------------------------------------------- what disarming does

  lemma {:induction false} WithdrawnMeaning(allow: seq<string>, added: seq<string>)
    requires AreNames(allow)
    ensures AreNames(Withdrawn(allow, added).0) && SetOf(Withdrawn(allow, added).0) == SetOf(allow) - SetOf(added)
    ensures SetOf(Withdrawn(allow, added).1) == SetOf(allow) * SetOf(added)
  {
    if added != [] {
      var init, cmd := added[..|added| - 1], added[|added| - 1];
      WithdrawnMeaning(allow, init);
      var before := Withdrawn(allow, init);
      SetOfSnoc(init, cmd);
      SetOfSnoc(before.1, cmd);
      DeletedNames(before.0, cmd);
      assert added == init + [cmd];
      assert cmd in before.0 <==> cmd in SetOf(before.0);
    }
  }

  lemma {:induction false} ReinstatedMeaning(deny: seq<string>, removed: seq<string>)
    ensures SetOf(Reinstated(deny, removed).0) == SetOf(deny) + SetOf(removed)
    ensures SetOf(Reinstated(deny, removed).1) == SetOf(removed) - SetOf(deny)
  {
    if removed != [] {
      var init, cmd := removed[..|removed| - 1], removed[|removed| - 1];
      ReinstatedMeaning(deny, init);
      var before := Reinstated(deny, init);
      SetOfSnoc(init, cmd);
      SetOfSnoc(before.0, cmd);
      SetOfSnoc(before.1, cmd);
      assert removed == init + [cmd];
      assert cmd in before.0 <==> cmd in SetOf(before.0);
    }
  }

  lemma NamesFromSet(a: seq<string>, b: seq<string>, c: seq<string>)
    requires SetOf(a) == SetOf(b) + SetOf(c)
    ensures Names(a) == Names(b) + Names(c)
  {
    assert forall v :: v in a <==> v in SetOf(a);
    assert forall v :: v in b <==> v in SetOf(b);
    assert forall v :: v in c <==> v in SetOf(c);
  }

  lemma SomeMember(list: seq<string>)
    ensures list == [] <==> SetOf(list) == {}
  {
    if list != [] { assert list[0] in SetOf(list); }
  }

  /** Disarming takes the recorded grants off the allow list and puts the recorded denials back, and nothing else. */
  lemma DisarmedMeaning(lists: Lists, record: ArmState)
    ensures Names(Disarmed(lists, Some(record)).allow) == Names(lists.allow) - SetOf(AddedBy(record))
    ensures Names(Disarmed(lists, Some(record)).deny) == Names(lists.deny) + Names(record.removedFromDeny)
  {
    var allow, deny := UniqSorted(lists.allow), UniqSorted(lists.deny);
    UniqSortedAreNames(lists.allow);
    UniqSortedAreNames(lists.deny);
    WithdrawnMeaning(allow, AddedBy(record));
    ReinstatedMeaning(deny, record.removedFromDeny);
    if Undoes(lists, Some(record)) {
      NamesOfNames(Withdrawn(allow, AddedBy(record)).0);
      NamesFromSet(Reinstated(deny, record.removedFromDeny).0, deny, record.removedFromDeny);
      NamesOfNames(deny);
      UniqSortedIsCanonical(Withdrawn(allow, AddedBy(record)).0, []);
      UniqSortedIsCanonical(Reinstated(deny, record.removedFromDeny).0, []);
    } else {
      SomeMember(ToRemove(lists, record));
      SomeMember(ToRestore(lists, record));
      NothingTaken(Names(lists.allow), SetOf(AddedBy(record)));
      RestoredAlready(lists, record.removedFromDeny);
      assert Names(lists.deny) + Names(record.removedFromDeny) == Names(lists.deny);
    }
  }

  lemma NothingTaken<T>(a: set<T>, b: set<T>)
    requires a * b == {}
    ensures a - b == a
  {
    forall x | x in a ensures x !in b { assert x !in a * b; }
  }

  lemma RestoredAlready(lists: Lists, removed: seq<string>)
    requires SetOf(removed) - Names(lists.deny) == {}
    ensures Names(removed) <= Names(lists.deny)
  {
    forall x | x in Names(removed) ensures x in Names(lists.deny) {
      var v :| v in removed && JsTrim(v) != "" && JsTrim(v) == x;
      assert v in SetOf(removed) && v !in SetOf(removed) - Names(lists.deny);
      assert v in Names(lists.deny);
      var u :| u in lists.deny && JsTrim(u) != "" && JsTrim(u) == v;
      JsTrimIsTrimmed(u);
      JsTrimIsTrimmed(v);
    }
  }

  /** Lists as the plugin writes them. */
  predicate IsNormal(lists: Lists) { UniqSorted(lists.allow) == lists.allow && UniqSorted(lists.deny) == lists.deny }

  function NormalLists(lists: Lists): Lists { Lists(UniqSorted(lists.allow), UniqSorted(lists.deny)) }

  lemma DisarmedIsNormal(lists: Lists, state: Option<ArmState>)
    requires IsNormal(lists) || Undoes(lists, state)
    ensures IsNormal(Disarmed(lists, state))
  {
    if Undoes(lists, state) {
      UniqSortedIsCanonical(Withdrawn(UniqSorted(lists.allow), AddedBy(state.value)).0, []);
      UniqSortedIsCanonical(Reinstated(UniqSorted(lists.deny), state.value.removedFromDeny).0, []);
    }
  }

  /** Normal lists are determined by their names. */
  lemma NormalIsCanonical(a: Lists, b: Lists)
    requires IsNormal(a) && IsNormal(b) && Names(a.allow) == Names(b.allow) && Names(a.deny) == Names(b.deny)
    ensures a == b
  {
    UniqSortedIsCanonical(a.allow, b.allow);
    UniqSortedIsCanonical(a.deny, b.deny);
  }

  lemma NormalListsAreNormal(lists: Lists, normal: Lists)
    requires normal == NormalLists(lists)
    ensures IsNormal(normal) && Names(normal.allow) == Names(lists.allow) && Names(normal.deny) == Names(lists.deny)
  {
    UniqSortedIsCanonical(lists.allow, []);
    UniqSortedIsCanonical(lists.deny, []);
  }

  /** Normal lists with the names of others are their normal form. */
  lemma NamesMakeNormal(lists: Lists, normal: Lists)
    requires IsNormal(normal) && Names(normal.allow) == Names(lists.allow) && Names(normal.deny) == Names(lists.deny)
    ensures normal == NormalLists(lists)
  {
    NormalListsAreNormal(lists, NormalLists(lists));
    NormalIsCanonical(normal, NormalLists(lists));
  }

  /** What disarming makes of normal lists. */
  lemma DisarmedNormally(lists: Lists, record: ArmState, result: Lists)
    requires IsNormal(lists) && result == Disarmed(lists, Some(record))
    ensures IsNormal(result)
    ensures Names(result.allow) == Names(lists.allow) - SetOf(AddedBy(record))
    ensures Names(result.deny) == Names(lists.deny) + Names(record.removedFromDeny)
  {
    DisarmedIsNormal(lists, Some(record));
    DisarmedMeaning(lists, record);
  }

  // ---------------------------------------------------------------- arming and disarming

  predicate AreNameSet(s: set<string>) { forall x :: x in s ==> x != "" && JsTrim(x) == x }

  lemma SortedNamesAreNormal(list: seq<string>, s: set<string>)
    requires IsSorted(list, s) && AreNameSet(s)
    ensures UniqSorted(list) == list && Names(list) == s && SetOf(list) == s
  {
    assert forall i :: 0 <= i < |list| ==> list[i] in s;
    NamesOfNames(list);
    SortedIsUnique(list, UniqSorted(list), s);
  }

  lemma NamesAreNameSet(values: seq<string>)
    ensures AreNameSet(Names(values))
  {
    forall x | x in Names(values) ensures JsTrim(x) == x {
      var v :| v in values && JsTrim(v) != "" && JsTrim(v) == x;
      JsTrimIsTrimmed(v);
      JsTrimIsTrimmed(x);
    }
  }

  /** Arming a group is a step of a run. */
  lemma GroupIsNameSet(group: Group)
    ensures AreNameSet(CommandsOf(group))
  {
    GroupCommands(group);
    NamesAreNameSet(ResolveCommandsForGroup(group));
  }

  lemma ArmedParts(before: Lists, after: Lists, state: Option<ArmState>, commands: set<string>)
    requires IsArmed(before, after, state, commands) && AreNameSet(commands)
    ensures IsNormal(after) && Names(after.allow) == Names(before.allow) + commands
           && Names(after.deny) == Names(before.deny) - commands
    ensures SetOf(AddedBy(state.value)) == commands - Names(before.allow)
    ensures Names(state.value.removedFromDeny) == commands * Names(before.deny)
  {
    NamesAreNameSet(before.allow);
    NamesAreNameSet(before.deny);
    SortedNamesAreNormal(after.allow, Names(before.allow) + commands);
    SortedNamesAreNormal(after.deny, Names(before.deny) - commands);
    SortedNamesAreNormal(state.value.addedToAllow, commands - Names(before.allow));
    SortedNamesAreNormal(state.value.removedFromDeny, commands * Names(before.deny));
  }

  /** Disarming after arming returns to the normalised lists from before. */
  lemma DisarmUndoesArm(before: Lists, after: Lists, state: Option<ArmState>, commands: set<string>, result: Lists)
    requires IsArmed(before, after, state, commands) && AreNameSet(commands) && result == Disarmed(after, state)
    ensures result == NormalLists(before)
  {
    ArmedParts(before, after, state, commands);
    DisarmedNormally(after, state.value, result);
    TakenBack(Names(before.allow), Names(before.deny), commands);
    NamesMakeNormal(before, result);
  }

  lemma TakenBack<T>(allow: set<T>, deny: set<T>, commands: set<T>)
    ensures (allow + commands) - (commands - allow) == allow
    ensures (deny - commands) + (commands * deny) == deny
  {}

  lemma TakenTwice<T>(allow: set<T>, deny: set<T>, added: set<T>, removed: set<T>)
    ensures (allow - added) - added == allow - added
    ensures (deny + removed) + removed == deny + removed
  {}

  /** Disarming again with the same record changes nothing. */
  lemma DisarmTwice(lists: Lists, record: ArmState, once: Lists, twice: Lists)
    requires once == Disarmed(lists, Some(record)) && twice == Disarmed(once, Some(record))
    ensures twice == once
  {
    if Undoes(lists, Some(record)) {
      DisarmedMeaning(lists, record);
      DisarmedIsNormal(lists, Some(record));
      DisarmedNormally(once, record, twice);
      TakenTwice(Names(lists.allow), Names(lists.deny), SetOf(AddedBy(record)), Names(record.removedFromDeny));
      NormalIsCanonical(twice, once);
    }
  }

  /** Edits made in between to commands that were not recorded survive the disarming; recorded ones are taken back. */
  lemma OutsideEditsSurvive(edited: Lists, record: ArmState, command: string)
    ensures command in Names(Disarmed(edited, Some(record)).allow)
       <==> command in Names(edited.allow) && command !in AddedBy(record)
    ensures command in Names(Disarmed(edited, Some(record)).deny)
       <==> command in Names(edited.deny) || command in Names(record.removedFromDeny)
  {
    DisarmedMeaning(edited, record);
    assert command in SetOf(AddedBy(record)) <==> command in AddedBy(record);
  }

  /**
   * A second arming overwrites the first record: disarming then returns to the lists from before the first exactly when
   * the first changed nothing, that is, when its commands were all allowed and none denied.
   */
  lemma SecondArmOverwritesIff(l0: Lists, l1: Lists, s1: Option<ArmState>, c1: set<string>, l2: Lists,
                               s2: Option<ArmState>, c2: set<string>)
    requires IsArmed(l0, l1, s1, c1) && IsArmed(l1, l2, s2, c2) && AreNameSet(c1) && AreNameSet(c2)
    ensures Disarmed(l2, s2) == NormalLists(l0) <==> c1 <= Names(l0.allow) && c1 !! Names(l0.deny)
  {
    ArmedParts(l0, l1, s1, c1);
    DisarmUndoesArm(l1, l2, s2, c2, Disarmed(l2, s2));
    NamesMakeNormal(l1, l1);
    ArmChangedNothingIff(l0, l1, c1);
  }

  lemma NormalEqualIff(before: Lists, after: Lists)
    requires IsNormal(after)
    ensures after == NormalLists(before)
           <==> Names(after.allow) == Names(before.allow) && Names(after.deny) == Names(before.deny)
  {
    NormalListsAreNormal(before, NormalLists(before));
    if Names(after.allow) == Names(before.allow) && Names(after.deny) == Names(before.deny) {
      NamesMakeNormal(before, after);
    }
  }

  lemma ArmChangedNothingIff(before: Lists, after: Lists, commands: set<string>)
    requires IsNormal(after) && Names(after.allow) == Names(before.allow) + commands
           && Names(after.deny) == Names(before.deny) - commands
    ensures after == NormalLists(before) <==> commands <= Names(before.allow) && commands !! Names(before.deny)
  {
    NormalEqualIff(before, after);
  }

  // ---------------------------------------------------------------- runs

  datatype Event = Arm(commands: set<string>) | Disarm | Tick(now: int)

  ghost predicate IsStep(w: World, e: Event, w': World) {
    match e
    case Arm(commands) => AreNameSet(commands) && IsArmed(w.lists, w'.lists, w'.state, commands)
    case Disarm => w' == World(Disarmed(w.lists, w.state), None)
    case Tick(now) => w' == if Expired(w.state, now) then World(Disarmed(w.lists, w.state), None) else w
  }

  /** A run without outside edits that starts disarmed. */
  ghost predicate IsRun(ws: seq<World>, events: seq<Event>) {
    && |ws| == |events| + 1 && ws[0].state.None?
    && forall n :: 0 <= n < |events| ==> IsStep(ws[n], events[n], ws[n + 1])
  }

  /** Event k is the last arming before n. */
  predicate IsLastArm(events: seq<Event>, k: nat, n: nat) {
    k < n <= |events| && events[k].Arm? && forall j :: k < j < n ==> !events[j].Arm?
  }

  /** As long as a grant is in force, nothing has changed since the last arming. */
  lemma {:induction false} ArmedSince(ws: seq<World>, events: seq<Event>, n: nat) returns (k: nat)
    requires IsRun(ws, events) && n <= |events| && ws[n].state.Some?
    ensures IsLastArm(events, k, n) && ws[n] == ws[k + 1]
  {
    assert IsStep(ws[n - 1], events[n - 1], ws[n]);
    if events[n - 1].Arm? {
      k := n - 1;
    } else {
      k := ArmedSince(ws, events, n - 1);
    }
  }

  /** While a grant is in force its commands are allowed and not denied. */
  lemma GrantHolds(ws: seq<World>, events: seq<Event>, n: nat) returns (k: nat)
    requires IsRun(ws, events) && n <= |events| && ws[n].state.Some?
    ensures IsLastArm(events, k, n)
    ensures events[k].commands <= Names(ws[n].lists.allow) && events[k].commands !! Names(ws[n].lists.deny)
  {
    k := ArmedSince(ws, events, n);
    assert IsStep(ws[k], events[k], ws[k + 1]);
    ArmedParts(ws[k].lists, ws[k + 1].lists, ws[k + 1].state, events[k].commands);
  }

  /** Whenever a grant ends, by command or by expiry, the lists are those from before the last arming, normalised. */
  lemma EndOfGrantRestores(ws: seq<World>, events: seq<Event>, m: nat) returns (k: nat)
    requires IsRun(ws, events) && m < |events| && ws[m].state.Some? && ws[m + 1].state.None?
    ensures IsLastArm(events, k, m) && ws[m + 1].lists == NormalLists(ws[k].lists)
  {
    k := ArmedSince(ws, events, m);
    assert IsStep(ws[k], events[k], ws[k + 1]);
    assert IsStep(ws[m], events[m], ws[m + 1]);
    DisarmUndoesArm(ws[k].lists, ws[k + 1].lists, ws[k + 1].state, events[k].commands, ws[m + 1].lists);
  }

  /** A grant in force ends with a poll exactly when the poll comes at its time of expiry or later. */
  lemma GrantEndsOnTime(ws: seq<World>, events: seq<Event>, n: nat, now: int)
    requires IsRun(ws, events) && n < |events| && events[n] == Tick(now) && ws[n].state.Some?
    ensures ws[n + 1].state.None? <==> exists t :: ws[n].state.value.expiresAtMs == Some(t) && t <= now
    ensures ws[n + 1].state.Some? ==> ws[n + 1] == ws[n]
  {
    assert IsStep(ws[n], events[n], ws[n + 1]);
  }
}
