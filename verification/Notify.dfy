/**
 * Pairing notifications: the persisted subscriber list, the commands and the polling tick
 * (extensions/device-pair/notify.ts).
 */
module Notify {
  import opened Text

  const MAX_SEEN_AGE_MS := 24 * 60 * 60 * 1000

  datatype Mode = Persistent | Once

  datatype Target = Target(to: string, accountId: Option<string>, threadId: Option<int>)

  datatype Subscription = Subscription(target: Target, mode: Mode, addedAtMs: int)

  datatype Request = Request(id: string, ts: Option<int>)

  datatype State = State(subscribers: seq<Subscription>, notified: map<string, int>)

  /** One poll: the clock, the pending requests, and whether sending request i to subscriber j succeeds. */
  datatype Poll = Poll(now: int, pending: seq<Request>, accepts: (nat, nat) -> bool)

  // ---------------------------------------------------------------- keys and targets

  function ThreadText(threadId: Option<int>): string {
    if threadId.None? then ""
    else if threadId.value < 0 then "-" + Decimal(-threadId.value)
    else Decimal(threadId.value)
  }

  function Key(t: Target): string {
    t.to + "|" + (if t.accountId.Some? then t.accountId.value else "") + "|" + ThreadText(t.threadId)
  }

  /** The key of a subscription. */
  function KeyOf(s: Subscription): string { Key(s.target) }

  datatype Context = Context(senderId: Option<string>, from: Option<string>, to: Option<string>,
                             accountId: Option<string>, threadId: Option<int>)

  function TrimmedOr(value: Option<string>, otherwise: string): string {
    if value.Some? && JsTrim(value.value) != "" then JsTrim(value.value) else otherwise
  }

  function ResolveTarget(ctx: Context): (r: Option<Target>)
    ensures r.Some? ==> r.value.to != ""
  {
    var to := TrimmedOr(ctx.senderId, TrimmedOr(ctx.from, TrimmedOr(ctx.to, "")));
    if to == "" then None
    else Some(Target(to, if ctx.accountId == Some("") then None else ctx.accountId, ctx.threadId))
  }

  // ---------------------------------------------------------------- reading the state file

  function NormalTarget(t: Target): Target {
    Target(JsTrim(t.to),
           if t.accountId.Some? && JsTrim(t.accountId.value) != "" then Some(JsTrim(t.accountId.value)) else None,
           t.threadId)
  }

  function NormalSubscription(s: Subscription): Subscription {
    Subscription(NormalTarget(s.target), s.mode, s.addedAtMs)
  }

  /** A subscription read back: dropped when its recipient is blank. */
  function Reread(s: Subscription): seq<Subscription> {
    if JsTrim(s.target.to) == "" then [] else [NormalSubscription(s)]
  }

  function NormalSubscribers(subs: seq<Subscription>): seq<Subscription> {
    if subs == [] then [] else NormalSubscribers(subs[..|subs| - 1]) + Reread(subs[|subs| - 1])
  }

  /** What reading the state file makes of it. */
  function Normal(file: State): State {
    State(NormalSubscribers(file.subscribers),
          map id | id in file.notified && JsTrim(id) != "" && file.notified[id] > 0 :: file.notified[id])
  }

  /** A target that reading back leaves as it is. */
  predicate Settled(t: Target) { t.to != "" && NormalTarget(t) == t }

  /** A target reads back as it is exactly when recipient and account id, if given, are trimmed and not empty. */
  lemma SettledIff(t: Target)
    ensures Settled(t) <==> && t.to != "" && JsTrimmed(t.to)
                            && (t.accountId.Some? ==> t.accountId.value != "" && JsTrimmed(t.accountId.value))
  {
    JsTrimIsTrimmed(t.to);
    if t.accountId.Some? { JsTrimIsTrimmed(t.accountId.value); }
  }

  /** The k-th of the three fields is the first that is not blank. */
  predicate IsFirstGiven(fields: seq<Option<string>>, k: nat) {
    && k < |fields| && fields[k].Some? && !IsJsBlank(fields[k].value)
    && forall j :: 0 <= j < k ==> fields[j].None? || IsJsBlank(fields[j].value)
  }

  lemma TrimmedBlankIff(text: string)
    ensures JsTrim(text) == "" <==> IsJsBlank(text)
  {
    var left, right := JsTrimParts(text);
    if IsJsBlank(text) {
      JsTrimOf(text, "", "");
      assert text + "" + "" == text;
    }
    assert forall c :: c in text <==> c in left || c in JsTrim(text) || c in right;
    JsTrimIsTrimmed(text);
    if JsTrim(text) != "" { assert JsTrim(text)[0] in JsTrim(text); }
  }

  lemma FirstGivenOf(a: Option<string>, b: Option<string>, c: Option<string>, k: nat)
    requires IsFirstGiven([a, b, c], k)
    ensures JsTrim([a, b, c][k].value) != ""
    ensures TrimmedOr(a, TrimmedOr(b, TrimmedOr(c, ""))) == JsTrim([a, b, c][k].value)
  {
    var fields := [a, b, c];
    TrimmedBlankIff(fields[k].value);
    assert fields[0] == a && fields[1] == b && fields[2] == c;
    if a.Some? { TrimmedBlankIff(a.value); }
    if b.Some? { TrimmedBlankIff(b.value); }
  }

  lemma NoneGivenOf(a: Option<string>, b: Option<string>, c: Option<string>)
    requires forall k: nat :: !IsFirstGiven([a, b, c], k)
    ensures TrimmedOr(a, TrimmedOr(b, TrimmedOr(c, ""))) == ""
  {
    var fields := [a, b, c];
    assert fields[0] == a && fields[1] == b && fields[2] == c;
    assert !IsFirstGiven(fields, 0) && !IsFirstGiven(fields, 1) && !IsFirstGiven(fields, 2);
    if a.Some? { TrimmedBlankIff(a.value); }
    if b.Some? { TrimmedBlankIff(b.value); }
    if c.Some? { TrimmedBlankIff(c.value); }
  }

  /** The recipient is the sender if given, else the `from` and then the `to` field; there is none if all are blank. */
  lemma ResolvedTarget(ctx: Context)
    ensures var fields, r := [ctx.senderId, ctx.from, ctx.to], ResolveTarget(ctx);
            && (r.None? <==> forall k: nat :: !IsFirstGiven(fields, k))
            && (forall k: nat :: IsFirstGiven(fields, k) ==> r.Some? && r.value.to == JsTrim(fields[k].value))
            && (r.Some? ==> r.value.threadId == ctx.threadId && r.value.accountId != Some("")
                            && (ctx.accountId != Some("") ==> r.value.accountId == ctx.accountId))
  {
    forall k: nat | IsFirstGiven([ctx.senderId, ctx.from, ctx.to], k)
      ensures ResolveTarget(ctx).Some?
              && ResolveTarget(ctx).value.to == JsTrim([ctx.senderId, ctx.from, ctx.to][k].value)
    {
      FirstGivenOf(ctx.senderId, ctx.from, ctx.to, k);
    }
    if forall k: nat :: !IsFirstGiven([ctx.senderId, ctx.from, ctx.to], k) {
      NoneGivenOf(ctx.senderId, ctx.from, ctx.to);
    }
  }

  lemma ThreadTextStarts(a: Option<int>)
    ensures a.None? <==> ThreadText(a) == ""
    ensures a.Some? ==> (ThreadText(a)[0] == '-' <==> a.value < 0)
    ensures '|' !in ThreadText(a)
  {}

  lemma ThreadTextInjective(a: Option<int>, b: Option<int>)
    ensures ThreadText(a) == ThreadText(b) <==> a == b
  {
    ThreadTextStarts(a);
    ThreadTextStarts(b);
    if a.Some? && b.Some? && ThreadText(a) == ThreadText(b) {
      if a.value < 0 {
        assert ThreadText(a)[1..] == Decimal(-a.value) && ThreadText(b)[1..] == Decimal(-b.value);
        DecimalInjective(-a.value, -b.value);
      } else {
        DecimalInjective(a.value, b.value);
      }
    }
  }

  function AccountText(t: Target): string { if t.accountId.Some? then t.accountId.value else "" }

  /** Targets without bars have one key exactly when recipient, account id and thread are the same. */
  lemma KeyIff(a: Target, b: Target)
    requires '|' !in a.to && '|' !in b.to && '|' !in AccountText(a) && '|' !in AccountText(b)
    ensures Key(a) == Key(b) <==> a.to == b.to && AccountText(a) == AccountText(b) && a.threadId == b.threadId
  {
    ThreadTextInjective(a.threadId, b.threadId);
    if Key(a) == Key(b) {
      BarsApart(a.to, AccountText(a), ThreadText(a.threadId), b.to, AccountText(b), ThreadText(b.threadId));
    }
  }

  lemma FirstBar(a: string, x: string, b: string, y: string)
    requires a + "|" + x == b + "|" + y && '|' !in a && '|' !in b
    ensures a == b && x == y
  {
    var s := a + "|" + x;
    assert s[|a|] == '|' && (b + "|" + y)[|b|] == '|';
    assert forall i :: 0 <= i < |a| ==> s[i] == a[i];
    assert forall i :: 0 <= i < |b| ==> (b + "|" + y)[i] == b[i];
    assert |a| == |b|;
    assert s[..|a|] == a && s[|a| + 1..] == x && (b + "|" + y)[..|b|] == b && (b + "|" + y)[|b| + 1..] == y;
  }

  lemma BarsApart(a: string, x: string, u: string, b: string, y: string, v: string)
    requires a + "|" + x + "|" + u == b + "|" + y + "|" + v
    requires '|' !in a && '|' !in b && '|' !in x && '|' !in y
    ensures a == b && x == y && u == v
  {
    assert a + "|" + x + "|" + u == a + "|" + (x + "|" + u) && b + "|" + y + "|" + v == b + "|" + (y + "|" + v);
    FirstBar(a, x + "|" + u, b, y + "|" + v);
    FirstBar(x, u, y, v);
  }

  // ---------------------------------------------------------------- commands

  /** `findIndex`. */
  function FindIndex<T>(xs: seq<T>, matches: T -> bool, start: nat): (r: Option<nat>)
    requires start <= |xs|
    ensures r.Some? ==> start <= r.value < |xs| && matches(xs[r.value])
    ensures forall i :: start <= i < (if r.Some? then r.value else |xs|) ==> !matches(xs[i])
    decreases |xs| - start
  {
    if start == |xs| then None
    else if matches(xs[start]) then Some(start)
    else FindIndex(xs, matches, start + 1)
  }

  function FindKey(subs: seq<Subscription>, key: string): (r: Option<nat>)
    ensures r.Some? ==> r.value < |subs| && KeyOf(subs[r.value]) == key
    ensures forall i :: 0 <= i < (if r.Some? then r.value else |subs|) ==> KeyOf(subs[i]) != key
  {
    FindIndex(subs, (s: Subscription) => KeyOf(s) == key, 0)
  }

  /** The list after an upsert: appended, replaced where the mode differs, or unchanged. */
  function Upserted(subs: seq<Subscription>, target: Target, mode: Mode, now: int): seq<Subscription> {
    var index := FindKey(subs, Key(target));
    if index.None? then subs + [Subscription(target, mode, now)]
    else if subs[index.value].mode == mode then subs
    else subs[index.value := Subscription(target, mode, now)]
  }

  function Removed(subs: seq<Subscription>, key: string): seq<Subscription> {
    var index := FindKey(subs, key);
    if index.None? then subs else subs[..index.value] + subs[index.value + 1..]
  }

  lemma FoundBehind(before: seq<Subscription>, s: Subscription, after: seq<Subscription>, key: string)
    requires forall b :: b in before ==> KeyOf(b) != key
    ensures FindKey(before, key) == None
    ensures var subs := before + [s] + after;
            && subs[..|before|] == before && subs[|before|] == s && subs[|before| + 1..] == after
            && (KeyOf(s) == key ==> FindKey(subs, key) == Some(|before|))
  {
    var subs := before + [s] + after;
    forall i | 0 <= i < |before| ensures KeyOf(subs[i]) != key && KeyOf(before[i]) != key {
      assert subs[i] == before[i] && before[i] in before;
    }
  }

  lemma UpdateBetween(before: seq<Subscription>, s: Subscription, after: seq<Subscription>, t: Subscription)
    ensures (before + [s] + after)[|before| := t] == before + [t] + after
  {}

  /** What is removed is the first subscription under the key, if any; the others stay, in order. */
  lemma RemovedMeaning(before: seq<Subscription>, s: Subscription, after: seq<Subscription>, key: string)
    requires forall b :: b in before ==> KeyOf(b) != key
    ensures Removed(before, key) == before
    ensures KeyOf(s) == key ==> Removed(before + [s] + after, key) == before + after
  {
    FoundBehind(before, s, after, key);
  }

  /**
   * Subscribing changes nothing but the first subscription under the key, and that only if it has another mode; without
   * one, a new subscription comes last.
   */
  lemma UpsertedMeaning(before: seq<Subscription>, s: Subscription, after: seq<Subscription>, target: Target,
                        mode: Mode, now: int)
    requires forall b :: b in before ==> KeyOf(b) != Key(target)
    ensures Upserted(before, target, mode, now) == before + [Subscription(target, mode, now)]
    ensures KeyOf(s) == Key(target) ==>
              Upserted(before + [s] + after, target, mode, now)
              == before + [if s.mode == mode then s else Subscription(target, mode, now)] + after
  {
    FoundBehind(before, s, after, Key(target));
    UpdateBetween(before, s, after, Subscription(target, mode, now));
  }

  /** The subscriptions read back are those at the places `ks`, with trimmed recipient and account id. */
  ghost predicate ReadFrom(subs: seq<Subscription>, ks: seq<nat>, read: seq<Subscription>) {
    && |ks| == |read| && (forall i, j :: 0 <= i < j < |ks| ==> ks[i] < ks[j])
    && forall i :: 0 <= i < |ks| ==> ks[i] < |subs| && IsReadBack(subs[ks[i]], read[i])
  }

  /** Mode, time and thread stay; a blank account id is dropped. */
  predicate IsReadBack(s: Subscription, r: Subscription) {
    && r.mode == s.mode && r.addedAtMs == s.addedAtMs && r.target.threadId == s.target.threadId
    && r.target.to == JsTrim(s.target.to)
    && (if s.target.accountId.None? || IsJsBlank(s.target.accountId.value) then r.target.accountId.None?
        else r.target.accountId == Some(JsTrim(s.target.accountId.value)))
  }

  lemma ReadSnoc(subs: seq<Subscription>, ks: seq<nat>, read: seq<Subscription>, n: nat)
    requires ReadFrom(subs, ks, read) && n < |subs| && forall k: nat :: k in ks ==> k < n
    ensures ReadFrom(subs, ks + [n], read + [NormalSubscription(subs[n])])
  {
    var t := subs[n].target;
    if t.accountId.Some? { TrimmedBlankIff(t.accountId.value); }
    assert forall i :: 0 <= i < |ks| ==> ks[i] in ks;
  }

  /** Exactly the subscriptions with a recipient that is not blank are read back, in order. */
  lemma {:induction false} ReadInOrder(subs: seq<Subscription>, n: nat) returns (ks: seq<nat>)
    requires n <= |subs|
    ensures ReadFrom(subs, ks, NormalSubscribers(subs[..n]))
    ensures forall k: nat :: k in ks <==> k < n && !IsJsBlank(subs[k].target.to)
  {
    ks := [];
    if n > 0 {
      ks := ReadInOrder(subs, n - 1);
      assert subs[..n][..n - 1] == subs[..n - 1];
      TrimmedBlankIff(subs[n - 1].target.to);
      if !IsJsBlank(subs[n - 1].target.to) {
        ReadSnoc(subs, ks, NormalSubscribers(subs[..n - 1]), n - 1);
        ks := ks + [n - 1];
      }
    }
  }

  // ---------------------------------------------------------------- one poll

  function RequestTimestamp(r: Request): Option<int> {
    if r.ts.Some? && r.ts.value > 0 then r.ts else None
  }

  predicate Eligible(s: Subscription, r: Request) {
    s.mode == Once ==> RequestTimestamp(r).Some? && RequestTimestamp(r).value >= s.addedAtMs
  }

  function PendingIds(pending: seq<Request>): set<string> { set r | r in pending :: r.id }

  function Pruned(notified: map<string, int>, p: Poll): map<string, int> {
    map id | id in notified && id in PendingIds(p.pending) && p.now - notified[id] <= MAX_SEEN_AGE_MS :: notified[id]
  }

  /** A recorded id counts as seen unless its time is zero. */
  predicate Seen(notified: map<string, int>, id: string) { id in notified && notified[id] != 0 }

  /** Some subscriber gets request i. */
  predicate Served(subs: seq<Subscription>, p: Poll, i: nat)
    requires i < |p.pending|
  {
    exists j :: 0 <= j < |subs| && Eligible(subs[j], p.pending[i]) && p.accepts(i, j)
  }

  /** The recorded ids after the first i requests. */
  function Marked(subs: seq<Subscription>, p: Poll, n0: map<string, int>, i: nat): map<string, int>
    requires i <= |p.pending|
  {
    if i == 0 then n0
    else
      var before := Marked(subs, p, n0, i - 1);
      if Seen(before, p.pending[i - 1].id) || !Served(subs, p, i - 1) then before
      else before[p.pending[i - 1].id := p.now]
  }

  /** When its turn comes, request i is recorded as sent already. */
  predicate Skipped(s: State, p: Poll, i: nat)
    requires i < |p.pending|
  {
    Seen(Marked(s.subscribers, p, Pruned(s.notified, p), i), p.pending[i].id)
  }

  /** Request i is sent, or at least tried, to subscriber j. */
  predicate Tried(s: State, p: Poll, i: nat, j: nat) {
    && i < |p.pending| && j < |s.subscribers|
    && !Skipped(s, p, i)
    && Eligible(s.subscribers[j], p.pending[i])
  }

  predicate Sent(s: State, p: Poll, i: nat, j: nat) { Tried(s, p, i, j) && p.accepts(i, j) }

  /** The keys of the one-shot subscriptions served by the first n requests. */
  function OneShotsServed(s: State, p: Poll, n: nat): set<string>
    requires n <= |p.pending|
  {
    set i, j | 0 <= i < n && 0 <= j < |s.subscribers| && Sent(s, p, i, j) && s.subscribers[j].mode == Once
      :: KeyOf(s.subscribers[j])
  }

  function Without(subs: seq<Subscription>, keys: set<string>): seq<Subscription> {
    if subs == [] then []
    else
      var last := subs[|subs| - 1];
      Without(subs[..|subs| - 1], keys) + if KeyOf(last) in keys then [] else [last]
  }

  function Polled(s: State, p: Poll): State {
    State(Without(s.subscribers, OneShotsServed(s, p, |p.pending|)),
          Marked(s.subscribers, p, Pruned(s.notified, p), |p.pending|))
  }

  /** Trying to send request i to subscriber j. */
  datatype Attempt = Attempt(request: nat, subscriber: nat, ok: bool)

  predicate Earlier(a: Attempt, b: Attempt) {
    a.request < b.request || (a.request == b.request && a.subscriber < b.subscriber)
  }

  predicate InOrder(attempts: seq<Attempt>) {
    forall k, m :: 0 <= k < m < |attempts| ==> Earlier(attempts[k], attempts[m])
  }

  lemma AppendInOrder(before: seq<Attempt>, tries: seq<Attempt>, i: nat)
    requires InOrder(before) && forall a :: a in before ==> a.request < i
    requires InOrder(tries) && forall a :: a in tries ==> a.request == i
    ensures InOrder(before + tries)
  {}

  predicate Offered(subs: seq<Subscription>, p: Poll, i: nat, a: Attempt) {
    && i < |p.pending| && a.request == i && a.subscriber < |subs|
    && Eligible(subs[a.subscriber], p.pending[i]) && a.ok == p.accepts(i, a.subscriber)
  }

  /** The keys of the one-shot subscriptions request i reaches. */
  function OneShotsReached(subs: seq<Subscription>, p: Poll, i: nat, n: nat): set<string>
    requires i < |p.pending| && n <= |subs|
  {
    set j | 0 <= j < n && Eligible(subs[j], p.pending[i]) && p.accepts(i, j) && subs[j].mode == Once :: KeyOf(subs[j])
  }

  lemma ServedNext(s: State, p: Poll, i: nat)
    requires i < |p.pending|
    ensures OneShotsServed(s, p, i + 1)
         == OneShotsServed(s, p, i) + if Skipped(s, p, i) then {}
                                      else OneShotsReached(s.subscribers, p, i, |s.subscribers|)
  {
    var seen := Skipped(s, p, i);
    var after := OneShotsServed(s, p, i + 1);
    var before, reached := OneShotsServed(s, p, i), OneShotsReached(s.subscribers, p, i, |s.subscribers|);
    forall key | key in after ensures key in before || (!seen && key in reached) {
      var k, j :| 0 <= k < i + 1 && 0 <= j < |s.subscribers| && Sent(s, p, k, j) && s.subscribers[j].mode == Once
                  && key == KeyOf(s.subscribers[j]);
      if k == i { assert Eligible(s.subscribers[j], p.pending[i]) && p.accepts(i, j); }
    }
    forall key | !seen && key in reached ensures key in after {
      var j :| 0 <= j < |s.subscribers| && Eligible(s.subscribers[j], p.pending[i]) && p.accepts(i, j)
               && s.subscribers[j].mode == Once && key == KeyOf(s.subscribers[j]);
      assert Sent(s, p, i, j);
    }
  }

  lemma {:induction false} WithoutNone(subs: seq<Subscription>)
    ensures Without(subs, {}) == subs
  {
    if subs != [] { WithoutNone(subs[..|subs| - 1]); }
  }

  // ---------------------------------------------------------------- the state in memory

  class NotifyState {
    var subscribers: seq<Subscription>
    var notified: map<string, int>

    constructor Read(file: State)
      ensures Contents() == Normal(file)
    {
      subscribers := Normal(file).subscribers;
      notified := Normal(file).notified;
    }

    function Contents(): State
      reads this
    {
      State(subscribers, notified)
    }

    method Upsert(target: Target, mode: Mode, now: int) returns (changed: bool)
      modifies this
      ensures subscribers == Upserted(old(subscribers), target, mode, now) && notified == old(notified)
      ensures !changed ==> subscribers == old(subscribers)
    {
      var key := Key(target);
      var index := FindKey(subscribers, key);
      var next := Subscription(target, mode, now);
      if index.None? {
        subscribers := subscribers + [next];
        return true;
      }
      var existing := subscribers[index.value];
      if existing.mode == mode {
        return false;
      }
      subscribers := subscribers[index.value := next];
      return true;
    }

    method Prune(p: Poll) returns (changed: bool)
      modifies this
      ensures notified == Pruned(old(notified), p) && subscribers == old(subscribers)
      ensures !changed ==> notified == old(notified)
    {
      var entries := notified;
      var left := entries.Keys;
      changed := false;
      while left != {}
        invariant left <= entries.Keys && subscribers == old(subscribers)
        invariant forall id :: id in notified <==> id in entries && (id in left || id in Pruned(entries, p))
        invariant forall id :: id in notified ==> notified[id] == entries[id]
        invariant !changed ==> notified == entries
        decreases |left|
      {
        var id :| id in left;
        left := left - {id};
        if id !in PendingIds(p.pending) || p.now - entries[id] > MAX_SEEN_AGE_MS {
          notified := notified - {id};
          changed := true;
        }
      }
    }

    /** Offers request i to every subscriber in turn. */
    method Offer(p: Poll, i: nat) returns (tries: seq<Attempt>, delivered: bool, oneShots: set<string>)
      requires i < |p.pending|
      ensures delivered == Served(subscribers, p, i)
      ensures oneShots == OneShotsReached(subscribers, p, i, |subscribers|)
      ensures InOrder(tries) && forall a :: a in tries <==> Offered(subscribers, p, i, a)
    {
      tries, delivered, oneShots := [], false, {};
      for j := 0 to |subscribers|
        invariant delivered <==> exists k :: 0 <= k < j && Eligible(subscribers[k], p.pending[i]) && p.accepts(i, k)
        invariant oneShots == OneShotsReached(subscribers, p, i, j)
        invariant InOrder(tries) && forall a :: a in tries <==> Offered(subscribers, p, i, a) && a.subscriber < j
      {
        var subscriber := subscribers[j];
        if Eligible(subscriber, p.pending[i]) {
          var sent := p.accepts(i, j);
          tries := tries + [Attempt(i, j, sent)];
          delivered := delivered || sent;
          if sent && subscriber.mode == Once {
            oneShots := oneShots + {KeyOf(subscriber)};
          }
        }
      }
    }

    /** One tick on the state: what it tries, in order, and the state it leaves. */
    method NotifyPending(p: Poll) returns (attempts: seq<Attempt>, changed: bool)
      modifies this
      ensures Contents() == Polled(old(Contents()), p)
      ensures !changed ==> Contents() == old(Contents())
      ensures InOrder(attempts)
      ensures forall a :: a in attempts <==> Tried(old(Contents()), p, a.request, a.subscriber)
                                             && a.ok == p.accepts(a.request, a.subscriber)
    {
      ghost var s := Contents();
      changed := Prune(p);
      attempts := [];
      var oneShotDelivered := {};
      assert OneShotsServed(s, p, 0) == {};
      for i := 0 to |p.pending|
        invariant subscribers == s.subscribers && notified == Marked(subscribers, p, Pruned(s.notified, p), i)
        invariant oneShotDelivered == OneShotsServed(s, p, i)
        invariant InOrder(attempts) && forall a :: a in attempts <==> AttemptedBefore(s, p, i, a)
        invariant !changed ==> notified == s.notified && oneShotDelivered == {}
      {
        ServedNext(s, p, i);
        if !Seen(notified, p.pending[i].id) {
          var tries, delivered, oneShots := Offer(p, i);
          AppendInOrder(attempts, tries, i);
          attempts := attempts + tries;
          oneShotDelivered := oneShotDelivered + oneShots;
          if delivered {
            notified := notified[p.pending[i].id := p.now];
            changed := true;
          } else {
            assert oneShots == {};
          }
        }
      }
      WithoutNone(subscribers);
      subscribers := Without(subscribers, oneShotDelivered);
    }
  }

  predicate AttemptedBefore(s: State, p: Poll, i: nat, a: Attempt) {
    a.request < i && Tried(s, p, a.request, a.subscriber) && a.ok == p.accepts(a.request, a.subscriber)
  }

  // ---------------------------------------------------------------- the state file

  /** The state file; every command and every tick reads it, changes the copy and writes it back only if changed. */
  class Notifier {
    var file: State

    method Enable(target: Target, now: int)
      modifies this
      ensures Normal(file)
             == Normal(State(Upserted(Normal(old(file)).subscribers, target, Persistent, now),
                 Normal(old(file)).notified))
    {
      var state := new NotifyState.Read(file);
      var changed := state.Upsert(target, Persistent, now);
      NormalIsFixed(file);
      if changed { file := state.Contents(); }
    }

    method Arm(target: Target, now: int)
      modifies this
      ensures Normal(file)
             == Normal(State(Upserted(Normal(old(file)).subscribers, target, Once, now), Normal(old(file)).notified))
    {
      var state := new NotifyState.Read(file);
      var changed := state.Upsert(target, Once, now);
      NormalIsFixed(file);
      if changed { file := state.Contents(); }
    }

    method Disable(target: Target)
      modifies this
      ensures Normal(file)
             == Normal(State(Removed(Normal(old(file)).subscribers, Key(target)), Normal(old(file)).notified))
    {
      var state := new NotifyState.Read(file);
      var currentIndex := FindKey(state.subscribers, Key(target));
      NormalIsFixed(file);
      if currentIndex.Some? {
        state.subscribers := state.subscribers[..currentIndex.value] + state.subscribers[currentIndex.value + 1..];
        file := state.Contents();
      }
    }

    method Tick(p: Poll) returns (attempts: seq<Attempt>)
      modifies this
      ensures Normal(file) == Normal(Polled(Normal(old(file)), p))
      ensures InOrder(attempts)
      ensures forall a :: a in attempts <==> Tried(Normal(old(file)), p, a.request, a.subscriber)
                                             && a.ok == p.accepts(a.request, a.subscriber)
    {
      var state := new NotifyState.Read(file);
      var changed;
      attempts, changed := state.NotifyPending(p);
      NormalIsFixed(file);
      if changed { file := state.Contents(); }
    }
  }

  lemma NormalTargetIsFixed(t: Target)
    ensures NormalTarget(NormalTarget(t)) == NormalTarget(t)
    ensures JsTrim(t.to) != "" ==> Settled(NormalTarget(t))
  {
    JsTrimIsTrimmed(t.to);
    JsTrimIsTrimmed(JsTrim(t.to));
    if t.accountId.Some? {
      JsTrimIsTrimmed(t.accountId.value);
      JsTrimIsTrimmed(JsTrim(t.accountId.value));
    }
  }

  predicate AllSettled(subs: seq<Subscription>) { forall i :: 0 <= i < |subs| ==> Settled(subs[i].target) }

  lemma {:induction false} NormalIsSettled(subs: seq<Subscription>)
    ensures AllSettled(NormalSubscribers(subs))
  {
    if subs != [] {
      NormalIsSettled(subs[..|subs| - 1]);
      NormalTargetIsFixed(subs[|subs| - 1].target);
    }
  }

  lemma SettledKept(s: Subscription)
    requires Settled(s.target)
    ensures Reread(s) == [s]
  {}

  lemma {:induction false} SettledIsNormal(subs: seq<Subscription>)
    requires AllSettled(subs)
    ensures NormalSubscribers(subs) == subs
  {
    if subs != [] {
      SettledIsNormal(subs[..|subs| - 1]);
      SettledKept(subs[|subs| - 1]);
      assert subs == subs[..|subs| - 1] + [subs[|subs| - 1]];
    }
  }

  /** Reading a file that was written from what was read changes nothing. */
  lemma NormalIsFixed(file: State)
    ensures Normal(Normal(file)) == Normal(file)
    ensures AllSettled(Normal(file).subscribers)
  {
    NormalIsSettled(file.subscribers);
    SettledIsNormal(Normal(file).subscribers);
  }
}
