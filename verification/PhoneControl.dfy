/** Temporary grants of phone commands and their undo (extensions/phone-control/index.ts). */
module PhoneControl {
  import opened Text
  import opened SortedNames

  datatype Group = Camera | Screen | Writes | All

  /** The two command lists of the configuration. */
  datatype Lists = Lists(allow: seq<string>, deny: seq<string>)

  /** The undo record, in its two versions. */
  datatype ArmState =
    | V1(armedAtMs: int, expiresAtMs: Option<int>, removedFromDeny: seq<string>)
    | V2(armedAtMs: int, expiresAtMs: Option<int>, group: Group, armedCommands: seq<string>,
         addedToAllow: seq<string>, removedFromDeny: seq<string>)

  datatype World = World(lists: Lists, state: Option<ArmState>)

  // ---------------------------------------------------------------- groups

  function CameraCommands(): seq<string> { ["camera.snap", "camera.clip"] }

  function ScreenCommands(): seq<string> { ["screen.record"] }

  function WritesCommands(): seq<string> { ["calendar.add", "contacts.add", "reminders.add", "sms.send"] }

  function ResolveCommandsForGroup(group: Group): seq<string> {
    match group
    case Camera => UniqSorted(CameraCommands())
    case Screen => UniqSorted(ScreenCommands())
    case Writes => UniqSorted(WritesCommands())
    case All => UniqSorted(CameraCommands() + ScreenCommands() + WritesCommands())
  }

  // ---------------------------------------------------------------- sets in insertion order

  /** `Set.delete`. */
  function Deleted(list: seq<string>, x: string): seq<string> {
    if list == [] then [] else if list[0] == x then Deleted(list[1..], x) else [list[0]] + Deleted(list[1..], x)
  }

  lemma {:induction false} DeletedMeaning(list: seq<string>, x: string)
    ensures forall y :: y in Deleted(list, x) <==> y in list && y != x
  {
    if list != [] {
      DeletedMeaning(list[1..], x);
      assert list == [list[0]] + list[1..];
    }
  }

  function SetOf(list: seq<string>): set<string> { set x | x in list }

  /** A command list, none of it blank or untrimmed. */
  predicate AreNames(list: seq<string>) { forall i :: 0 <= i < |list| ==> list[i] != "" && JsTrim(list[i]) == list[i] }

  lemma NamesOfNames(list: seq<string>)
    requires AreNames(list)
    ensures Names(list) == SetOf(list)
  {
    forall x | x in list ensures x in Names(list) {
      var i :| 0 <= i < |list| && list[i] == x;
    }
    forall x | x in Names(list) ensures x in list {
      var v :| v in list && JsTrim(v) != "" && JsTrim(v) == x;
      var i :| 0 <= i < |list| && list[i] == v;
    }
  }

  lemma UniqSortedAreNames(values: seq<string>)
    ensures AreNames(UniqSorted(values)) && SetOf(UniqSorted(values)) == Names(values)
  {
    forall i | 0 <= i < |UniqSorted(values)|
      ensures UniqSorted(values)[i] != "" && JsTrim(UniqSorted(values)[i]) == UniqSorted(values)[i]
    {
      var x := UniqSorted(values)[i];
      assert x in UniqSorted(values);
      var v :| v in values && JsTrim(v) != "" && JsTrim(v) == x;
      JsTrimIsTrimmed(v);
      JsTrimIsTrimmed(x);
    }
  }

  lemma SetOfSnoc(list: seq<string>, x: string)
    ensures SetOf(list + [x]) == SetOf(list) + {x}
    ensures AreNames(list) && AreNames([x]) ==> AreNames(list + [x])
  {
    assert forall y :: y in list + [x] <==> y in list || y == x;
    assert [x][0] == x;
  }

  lemma DeletedNames(list: seq<string>, x: string)
    ensures SetOf(Deleted(list, x)) == SetOf(list) - {x}
    ensures AreNames(list) ==> AreNames(Deleted(list, x))
  {
    DeletedMeaning(list, x);
    forall i | 0 <= i < |Deleted(list, x)| ensures Deleted(list, x)[i] in list {
      assert Deleted(list, x)[i] in Deleted(list, x);
    }
    if AreNames(list) {
      forall i | 0 <= i < |Deleted(list, x)|
        ensures Deleted(list, x)[i] != "" && JsTrim(Deleted(list, x)[i]) == Deleted(list, x)[i]
      {
        var k :| 0 <= k < |list| && list[k] == Deleted(list, x)[i];
      }
    }
  }

  // ---------------------------------------------------------------- arming

  /** The sets that arming changes, and what it records. */
  datatype Ledger = Ledger(allow: seq<string>, deny: seq<string>, added: seq<string>, removed: seq<string>)

  predicate LedgerNames(l: Ledger) { AreNames(l.allow) && AreNames(l.deny) && AreNames(l.added) && AreNames(l.removed) }

  /** The ledger after the given commands. */
  predicate Tracks(l: Ledger, allow: set<string>, deny: set<string>, done: set<string>) {
    && LedgerNames(l)
    && SetOf(l.allow) == allow + done && SetOf(l.deny) == deny - done
    && SetOf(l.added) == done - allow && SetOf(l.removed) == done * deny
  }

  method Grant(l: Ledger, cmd: string, ghost allow: set<string>, ghost deny: set<string>, ghost done: set<string>)
    returns (r: Ledger)
    requires Tracks(l, allow, deny, done) && AreNames([cmd])
    ensures Tracks(r, allow, deny, done + {cmd})
  {
    SetOfSnoc(l.allow, cmd);
    SetOfSnoc(l.added, cmd);
    SetOfSnoc(l.removed, cmd);
    DeletedNames(l.deny, cmd);
    assert cmd in l.allow <==> cmd in SetOf(l.allow);
    assert cmd in l.deny <==> cmd in SetOf(l.deny);
    r := l;
    if cmd !in r.allow {
      r := Ledger(r.allow + [cmd], r.deny, r.added + [cmd], r.removed);
    }
    if cmd in r.deny {
      r := Ledger(r.allow, Deleted(r.deny, cmd), r.added, r.removed + [cmd]);
    }
  }

  method GrantAll(lists: Lists, commands: seq<string>) returns (r: Ledger)
    requires AreNames(commands)
    ensures Tracks(r, Names(lists.allow), Names(lists.deny), SetOf(commands))
  {
    UniqSortedAreNames(lists.allow);
    UniqSortedAreNames(lists.deny);
    r := Ledger(UniqSorted(lists.allow), UniqSorted(lists.deny), [], []);
    for i := 0 to |commands|
      invariant Tracks(r, Names(lists.allow), Names(lists.deny), SetOf(commands[..i]))
    {
      SetOfSnoc(commands[..i], commands[i]);
      assert commands[..i + 1] == commands[..i] + [commands[i]] && [commands[i]][0] == commands[i];
      r := Grant(r, commands[i], Names(lists.allow), Names(lists.deny), SetOf(commands[..i]));
    }
    assert commands[..|commands|] == commands;
  }

  /** The record matches the lists it was made from. */
  ghost predicate Records(state: ArmState, allow: set<string>, deny: set<string>, commands: set<string>) {
    && state.V2? && IsSorted(state.armedCommands, commands)
    && IsSorted(state.addedToAllow, commands - allow) && IsSorted(state.removedFromDeny, commands * deny)
  }

  /** What arming makes of the lists, and the record it writes. */
  ghost predicate IsArmed(before: Lists, after: Lists, state: Option<ArmState>, commands: set<string>) {
    && IsSorted(after.allow, Names(before.allow) + commands) && IsSorted(after.deny, Names(before.deny) - commands)
    && state.Some? && Records(state.value, Names(before.allow), Names(before.deny), commands)
  }

  ghost function CommandsOf(group: Group): set<string> { SetOf(ResolveCommandsForGroup(group)) }

  /** The commands of a group are names, listed without repetition. */
  lemma GroupCommands(group: Group)
    ensures AreNames(ResolveCommandsForGroup(group)) && Names(ResolveCommandsForGroup(group)) == CommandsOf(group)
  {
    match group {
      case Camera => UniqSortedAreNames(CameraCommands());
      case Screen => UniqSortedAreNames(ScreenCommands());
      case Writes => UniqSortedAreNames(WritesCommands());
      case All => UniqSortedAreNames(CameraCommands() + ScreenCommands() + WritesCommands());
    }
    NamesOfNames(ResolveCommandsForGroup(group));
  }

  lemma ListedNames(list: seq<string>)
    requires Listed(list)
    ensures SetOf(UniqSorted(list)) == SetOf(list)
  {
    forall i | 0 <= i < |list| ensures JsTrim(list[i]) == list[i] { JsTrimIsTrimmed(list[i]); }
    UniqSortedAreNames(list);
    NamesOfNames(list);
  }

  /** The commands of each group, and that all of them are the others together. */
  lemma CommandsOfGroups()
    ensures CommandsOf(Camera) == {"camera.snap", "camera.clip"} && CommandsOf(Screen) == {"screen.record"}
    ensures CommandsOf(Writes) == {"calendar.add", "contacts.add", "reminders.add", "sms.send"}
    ensures CommandsOf(All) == CommandsOf(Camera) + CommandsOf(Screen) + CommandsOf(Writes)
  {
    CameraNames();
    ScreenNames();
    WritesNames();
    AllNames(CameraCommands(), ScreenCommands(), WritesCommands());
  }

  predicate Listed(list: seq<string>) { forall i :: 0 <= i < |list| ==> list[i] != "" && JsTrimmed(list[i]) }

  lemma AllNames(a: seq<string>, b: seq<string>, c: seq<string>)
    requires Listed(a) && Listed(b) && Listed(c)
    ensures SetOf(UniqSorted(a + b + c)) == SetOf(a) + SetOf(b) + SetOf(c)
  {
    ListedNames(a + b + c);
  }

  lemma CameraNames()
    ensures Listed(CameraCommands()) && CommandsOf(Camera) == {"camera.snap", "camera.clip"}
    ensures CommandsOf(Camera) == SetOf(CameraCommands())
  {
    ListedNames(CameraCommands());
  }

  lemma ScreenNames()
    ensures Listed(ScreenCommands()) && CommandsOf(Screen) == {"screen.record"}
    ensures CommandsOf(Screen) == SetOf(ScreenCommands())
  {
    ListedNames(ScreenCommands());
  }

  lemma WritesNames()
    ensures Listed(WritesCommands())
    ensures CommandsOf(Writes) == {"calendar.add", "contacts.add", "reminders.add", "sms.send"}
    ensures CommandsOf(Writes) == SetOf(WritesCommands())
  {
    ListedNames(WritesCommands());
  }

  class PhoneControl {
    var lists: Lists
    var state: Option<ArmState>

    method Arm(group: Group, now: int, expiresAtMs: int)
      modifies this
      ensures IsArmed(old(lists), lists, state, CommandsOf(group))
      ensures state.value.armedAtMs == now && state.value.expiresAtMs == Some(expiresAtMs) && state.value.group == group
    {
      var commands := ResolveCommandsForGroup(group);
      GroupCommands(group);
      var l := GrantAll(lists, commands);
      NamesOfNames(l.allow);
      NamesOfNames(l.deny);
      NamesOfNames(l.added);
      NamesOfNames(l.removed);
      NamesOfNames(commands);
      lists := Lists(UniqSorted(l.allow), UniqSorted(l.deny));
      state := Some(V2(now, Some(expiresAtMs), group,
                       UniqSorted(commands), UniqSorted(l.added), UniqSorted(l.removed)));
    }

    /** Takes back what the record says; the lists are rewritten only if that changes them. */
    method DisarmNow() returns (changed: bool, restored: seq<string>, removed: seq<string>)
      modifies this
      ensures (lists, state) == (Disarmed(old(lists), old(state)), None)
      ensures changed == Undoes(old(lists), old(state))
      ensures old(state).Some? ==> IsSorted(removed, Names(ToRemove(old(lists), old(state).value)))
      ensures old(state).Some? ==> IsSorted(restored, Names(ToRestore(old(lists), old(state).value)))
      ensures old(state).None? ==> !changed && restored == [] && removed == []
    {
      if state.None? { return false, [], []; }
      var record := state.value;
      var allow := UniqSorted(lists.allow);
      var deny := UniqSorted(lists.deny);
      removed := [];
      restored := [];
      if record.V2? {
        for i := 0 to |record.addedToAllow|
          invariant (allow, removed) == Withdrawn(UniqSorted(lists.allow), record.addedToAllow[..i])
        {
          var cmd := record.addedToAllow[i];
          assert record.addedToAllow[..i + 1][..i] == record.addedToAllow[..i];
          if cmd in allow {
            allow := Deleted(allow, cmd);
            removed := removed + [cmd];
          }
        }
        assert record.addedToAllow[..|record.addedToAllow|] == record.addedToAllow;
      }
      for i := 0 to |record.removedFromDeny|
        invariant (deny, restored) == Reinstated(UniqSorted(lists.deny), record.removedFromDeny[..i])
      {
        var cmd := record.removedFromDeny[i];
        assert record.removedFromDeny[..i + 1][..i] == record.removedFromDeny[..i];
        if cmd !in deny {
          deny := deny + [cmd];
          restored := restored + [cmd];
        }
      }
      assert record.removedFromDeny[..|record.removedFromDeny|] == record.removedFromDeny;
      changed := |removed| > 0 || |restored| > 0;
      if changed {
        lists := Lists(UniqSorted(allow), UniqSorted(deny));
      }
      state := None;
      removed := UniqSorted(removed);
      restored := UniqSorted(restored);
    }

    method Tick(now: int)
      modifies this
      ensures if Expired(old(state), now) then (lists, state) == (Disarmed(old(lists), old(state)), None)
              else (lists, state) == (old(lists), old(state))
      ensures old(state).Some? ==>
                (state.None? <==> exists t :: old(state).value.expiresAtMs == Some(t) && t <= now)
    {
      if state.None? || state.value.expiresAtMs.None? { return; }
      if now < state.value.expiresAtMs.value { return; }
      var _, _, _ := DisarmNow();
    }
  }

  predicate Expired(state: Option<ArmState>, now: int) {
    state.Some? && state.value.expiresAtMs.Some? && now >= state.value.expiresAtMs.value
  }

  // ---------------------------------------------------------------- disarming

  /** The set without the recorded commands, and those that were in it. */
  function Withdrawn(allow: seq<string>, added: seq<string>): (seq<string>, seq<string>) {
    if added == [] then (allow, [])
    else
      var before, cmd := Withdrawn(allow, added[..|added| - 1]), added[|added| - 1];
      if cmd in before.0 then (Deleted(before.0, cmd), before.1 + [cmd]) else before
  }

  /** The set with the recorded commands, and those that were missing. */
  function Reinstated(deny: seq<string>, removed: seq<string>): (seq<string>, seq<string>) {
    if removed == [] then (deny, [])
    else
      var before, cmd := Reinstated(deny, removed[..|removed| - 1]), removed[|removed| - 1];
      if cmd !in before.0 then (before.0 + [cmd], before.1 + [cmd]) else before
  }

  function AddedBy(record: ArmState): seq<string> { if record.V2? then record.addedToAllow else [] }

  function ToRemove(lists: Lists, record: ArmState): seq<string> {
    Withdrawn(UniqSorted(lists.allow), AddedBy(record)).1
  }

  function ToRestore(lists: Lists, record: ArmState): seq<string> {
    Reinstated(UniqSorted(lists.deny), record.removedFromDeny).1
  }

  predicate Undoes(lists: Lists, state: Option<ArmState>) {
    state.Some? && (ToRemove(lists, state.value) != [] || ToRestore(lists, state.value) != [])
  }

  function Disarmed(lists: Lists, state: Option<ArmState>): Lists {
    if Undoes(lists, state)
    then Lists(UniqSorted(Withdrawn(UniqSorted(lists.allow), AddedBy(state.value)).0),
               UniqSorted(Reinstated(UniqSorted(lists.deny), state.value.removedFromDeny).0))
    else lists
  }
}
