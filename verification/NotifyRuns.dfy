/** What pairing notifications guarantee over whole runs of ticks and commands. */
module NotifyRuns {
  import opened Text
  import opened Notify

  datatype Event =
    | Tick(poll: Poll)
    | Enable(target: Target, now: int)
    | Arm(target: Target, now: int)
    | Disable(target: Target)

  /** What an event makes of the state that was read. */
  function After(s: State, e: Event): State {
    match e
    case Tick(p) => Polled(s, p)
    case Enable(target, now) => State(Upserted(s.subscribers, target, Persistent, now), s.notified)
    case Arm(target, now) => State(Upserted(s.subscribers, target, Once, now), s.notified)
    case Disable(target) => State(Removed(s.subscribers, Key(target)), s.notified)
  }

  /** The n-th event leads from the n-th view to the next one: what it leaves is written, and read back. */
  ghost predicate IsStep(views: seq<State>, events: seq<Event>, n: nat) {
    n < |events| && n + 1 < |views| && views[n + 1] == Normal(After(views[n], events[n]))
  }

  /** A run: views[n] is the state the n-th event reads, the first one as read from some file. */
  ghost predicate IsRun(views: seq<State>, events: seq<Event>) {
    && |views| == |events| + 1
    && views[0] == Normal(views[0])
    && forall n: nat :: n < |events| ==> IsStep(views, events, n)
  }

  // ---------------------------------------------------------------- suppression for 24 hours

  ghost predicate ServedId(s: State, p: Poll, id: string) {
    exists i: nat, j: nat :: Sent(s, p, i, j) && p.pending[i].id == id
  }

  ghost predicate ServedBefore(s: State, p: Poll, n: nat, id: string) {
    exists i: nat, j: nat :: i < n && Sent(s, p, i, j) && p.pending[i].id == id
  }

  /** A served id is recorded with the time of the poll, every other record stays. */
  lemma {:induction false} MarkedMeaning(s: State, p: Poll, n: nat, id: string)
    requires n <= |p.pending|
    ensures var before, m := Pruned(s.notified, p), Marked(s.subscribers, p, Pruned(s.notified, p), n);
            if ServedBefore(s, p, n, id) then id in m && m[id] == p.now
            else (id in m <==> id in before) && (id in m ==> m[id] == before[id])
  {
    if n > 0 {
      MarkedMeaning(s, p, n - 1, id);
      var m := Marked(s.subscribers, p, Pruned(s.notified, p), n - 1);
      if !Skipped(s, p, n - 1) && Served(s.subscribers, p, n - 1) {
        var j :| 0 <= j < |s.subscribers| && Eligible(s.subscribers[j], p.pending[n - 1]) && p.accepts(n - 1, j);
        assert Sent(s, p, n - 1, j);
      }
    }
  }

  /**
   * What one poll was for a request: when it happened, whether the request was pending, and whether it was
   * delivered.
   */
  datatype Visit = Visit(now: int, pending: bool, served: bool)

  /** A record that the first file has counts as a delivery at its time. */
  function FirstVisit(s: State, id: string): seq<Visit> {
    if id in s.notified then [Visit(s.notified[id], true, true)] else []
  }

  /** The polls among the first n events, as request id saw them, after what the first file records. */
  ghost function History(views: seq<State>, events: seq<Event>, n: nat, id: string): seq<Visit>
    requires n <= |events| < |views|
  {
    if n == 0 then FirstVisit(views[0], id)
    else History(views, events, n - 1, id) + Seen(views[n - 1], events[n - 1], id)
  }

  ghost function VisitOf(s: State, p: Poll, id: string): Visit {
    Visit(p.now, id in PendingIds(p.pending), ServedId(s, p, id))
  }

  /** Delivered at most 24 hours before t, and pending at every poll since. */
  predicate Suppressed(visits: seq<Visit>, t: int) {
    exists k :: 0 <= k < |visits| && visits[k].served && t - visits[k].now <= 24 * 60 * 60 * 1000
                && forall m :: k < m < |visits| ==> visits[m].pending
  }

  /** Polls happen at positive times that do not decrease and do not exceed t. */
  predicate Clocked(visits: seq<Visit>, t: int) {
    && (forall k :: 0 <= k < |visits| ==> 0 < visits[k].now <= t)
    && (forall k, m :: 0 <= k < m < |visits| ==> visits[k].now <= visits[m].now)
  }

  predicate Fresh(s: State, id: string, t: int) {
    id in s.notified && t - s.notified[id] <= MAX_SEEN_AGE_MS
  }

  lemma SuppressedNext(visits: seq<Visit>, v: Visit, t: int)
    requires Clocked(visits + [v], t) && (v.served ==> v.pending)
    ensures Suppressed(visits + [v], t)
       <==> if v.served then t - v.now <= MAX_SEEN_AGE_MS else v.pending && Suppressed(visits, t)
  {
    var all := visits + [v];
    if v.served && t - v.now <= MAX_SEEN_AGE_MS { assert all[|visits|].served; }
    if !v.served && v.pending && Suppressed(visits, t) {
      var k :| 0 <= k < |visits| && visits[k].served && t - visits[k].now <= MAX_SEEN_AGE_MS
               && forall m :: k < m < |visits| ==> visits[m].pending;
      assert all[k].served;
    }
    if Suppressed(all, t) {
      var k :| 0 <= k < |all| && all[k].served && t - all[k].now <= MAX_SEEN_AGE_MS
               && forall m :: k < m < |all| ==> all[m].pending;
      if k < |visits| {
        assert all[k].now <= all[|visits|].now;
        assert all[|visits|].pending;
        assert visits[k].served && forall m :: k < m < |visits| ==> visits[m] == all[m];
      }
    }
  }

  /** What one poll does to the record of an id. */
  lemma TickRecord(s: State, p: Poll, id: string, t: int)
    requires JsTrim(id) != "" && 0 < p.now <= t
    requires id in s.notified ==> s.notified[id] > 0
    ensures var after := Normal(Polled(s, p));
            && (id in after.notified ==> after.notified[id] > 0)
            && (Fresh(after, id, t) <==> if ServedId(s, p, id) then t - p.now <= MAX_SEEN_AGE_MS
                                         else id in PendingIds(p.pending) && Fresh(s, id, t))
  {
    MarkedMeaning(s, p, |p.pending|, id);
    assert ServedId(s, p, id) <==> ServedBefore(s, p, |p.pending|, id);
  }

  /** The record of an id is positive, and fresh at time t exactly when its history suppresses it. */
  predicate Matches(s: State, id: string, visits: seq<Visit>, t: int) {
    (id in s.notified ==> s.notified[id] > 0) && (Fresh(s, id, t) <==> Suppressed(visits, t))
  }

  lemma TickMatchesHistory(s: State, p: Poll, after: State, id: string, visits: seq<Visit>, t: int)
    requires JsTrim(id) != "" && after == Normal(Polled(s, p)) && Matches(s, id, visits, t)
    requires Clocked(visits + [VisitOf(s, p, id)], t)
    ensures Matches(after, id, visits + [VisitOf(s, p, id)], t)
  {
    var v := VisitOf(s, p, id);
    ClockedPrefix(visits, v, t);
    TickRecord(s, p, id, t);
    SuppressedNext(visits, v, t);
  }

  lemma CommandMatchesHistory(s: State, e: Event, after: State, id: string, visits: seq<Visit>, t: int)
    requires JsTrim(id) != "" && !e.Tick? && after == Normal(After(s, e)) && Matches(s, id, visits, t)
    ensures Matches(after, id, visits, t)
  {
    assert (id in after.notified <==> id in s.notified) && (id in s.notified ==> after.notified[id] == s.notified[id]);
  }

  lemma ViewAfter(views: seq<State>, events: seq<Event>, n: nat)
    requires IsRun(views, events) && 0 < n <= |events|
    ensures views[n] == Normal(After(views[n - 1], events[n - 1]))
  {
    assert IsStep(views, events, n - 1);
  }

  lemma FirstMatches(s: State, id: string, t: int)
    requires Clocked(FirstVisit(s, id), t)
    ensures Matches(s, id, FirstVisit(s, id), t)
  {
    var visits := FirstVisit(s, id);
    if id in s.notified { assert visits[0].served && visits[0].now == s.notified[id]; }
  }

  /** What one event adds to the history of an id. */
  ghost function Seen(s: State, e: Event, id: string): seq<Visit> {
    if e.Tick? then [VisitOf(s, e.poll, id)] else []
  }

  lemma ClockedBefore(s: State, e: Event, id: string, visits: seq<Visit>, t: int)
    requires Clocked(visits + Seen(s, e, id), t)
    ensures Clocked(visits, t)
  {
    if e.Tick? { ClockedPrefix(visits, VisitOf(s, e.poll, id), t); } else { assert visits + Seen(s, e, id) == visits; }
  }

  lemma EventMatchesHistory(s: State, e: Event, after: State, id: string, visits: seq<Visit>, t: int)
    requires JsTrim(id) != "" && after == Normal(After(s, e)) && Matches(s, id, visits, t)
    requires Clocked(visits + Seen(s, e, id), t)
    ensures Matches(after, id, visits + Seen(s, e, id), t)
  {
    if e.Tick? {
      TickMatchesHistory(s, e.poll, after, id, visits, t);
    } else {
      assert visits + Seen(s, e, id) == visits;
      CommandMatchesHistory(s, e, after, id, visits, t);
    }
  }

  lemma NextMatches(views: seq<State>, events: seq<Event>, n: nat, id: string, t: int)
    requires IsRun(views, events) && 0 < n <= |events| && JsTrim(id) != ""
    requires Clocked(History(views, events, n, id), t)
           && Matches(views[n - 1], id, History(views, events, n - 1, id), t)
    ensures Matches(views[n], id, History(views, events, n, id), t)
  {
    ViewAfter(views, events, n);
    EventMatchesHistory(views[n - 1], events[n - 1], views[n], id, History(views, events, n - 1, id), t);
  }

  lemma HistoryClocked(views: seq<State>, events: seq<Event>, n: nat, id: string, t: int)
    requires 0 < n <= |events| < |views| && Clocked(History(views, events, n, id), t)
    ensures Clocked(History(views, events, n - 1, id), t)
  {
    ClockedBefore(views[n - 1], events[n - 1], id, History(views, events, n - 1, id), t);
  }

  /** The stored record of an id is fresh exactly when the history of the run says so. */
  lemma {:induction false} RecordMatchesHistory(views: seq<State>, events: seq<Event>, n: nat, id: string, t: int)
    requires IsRun(views, events) && n <= |events| && JsTrim(id) != ""
    requires Clocked(History(views, events, n, id), t)
    ensures Matches(views[n], id, History(views, events, n, id), t)
  {
    if n == 0 {
      FirstMatches(views[0], id, t);
    } else {
      HistoryClocked(views, events, n, id, t);
      RecordMatchesHistory(views, events, n - 1, id, t);
      NextMatches(views, events, n, id, t);
    }
  }

  lemma ClockedPrefix(visits: seq<Visit>, v: Visit, t: int)
    requires Clocked(visits + [v], t)
    ensures Clocked(visits, t) && 0 < v.now <= t
  {
    var all := visits + [v];
    assert all[|visits|] == v;
    assert forall k :: 0 <= k < |visits| ==> visits[k] == all[k];
  }

  /** A persistent subscriber hears of every request, a one-shot only of one made since it was added. */
  predicate ToBeTold(subs: seq<Subscription>, j: nat, r: Request) {
    && j < |subs|
    && (subs[j].mode == Persistent || (r.ts.Some? && r.ts.value > 0 && r.ts.value >= subs[j].addedAtMs))
  }

  /**
   * At every poll of every run, a request is tried for a subscriber exactly when the subscriber is to be told of it
   * and the request was not delivered within the last 24 hours while staying pending ever since.
   */
  lemma TriedExactlyWhenDue(views: seq<State>, events: seq<Event>, p: Poll, i: nat, j: nat)
    requires IsRun(views, events) && p.now > 0
    requires i < |p.pending| && JsTrim(p.pending[i].id) != ""
    requires Clocked(History(views, events, |events|, p.pending[i].id), p.now)
    requires forall k :: 0 <= k < i ==> p.pending[k].id != p.pending[i].id
    ensures Tried(views[|events|], p, i, j)
       <==> && ToBeTold(views[|events|].subscribers, j, p.pending[i])
            && !Suppressed(History(views, events, |events|, p.pending[i].id), p.now)
  {
    RecordMatchesHistory(views, events, |events|, p.pending[i].id, p.now);
    TriedWhenStale(views[|events|], p, i, j);
  }

  lemma TriedWhenStale(s: State, p: Poll, i: nat, j: nat)
    requires i < |p.pending| && forall k :: 0 <= k < i ==> p.pending[k].id != p.pending[i].id
    requires p.pending[i].id in s.notified ==> s.notified[p.pending[i].id] > 0
    ensures Tried(s, p, i, j)
       <==> j < |s.subscribers| && Eligible(s.subscribers[j], p.pending[i]) && !Fresh(s, p.pending[i].id, p.now)
  {
    MarkedMeaning(s, p, i, p.pending[i].id);
    assert !ServedBefore(s, p, i, p.pending[i].id);
    assert p.pending[i] in p.pending;
  }

  /** A blank request id is never remembered from one event to the next: it is tried at every poll. */
  lemma BlankIdIsAlwaysTried(views: seq<State>, events: seq<Event>, p: Poll, i: nat, j: nat)
    requires IsRun(views, events) && i < |p.pending| && JsTrim(p.pending[i].id) == ""
    requires forall k :: 0 <= k < i ==> p.pending[k].id != p.pending[i].id
    ensures Tried(views[|events|], p, i, j)
       <==> ToBeTold(views[|events|].subscribers, j, p.pending[i])
  {
    assert p.pending[i].id !in views[|events|].notified by {
      if |events| > 0 { assert IsStep(views, events, |events| - 1); }
    }
    TriedWhenStale(views[|events|], p, i, j);
  }

  /** After a tick only pending requests are recorded. */
  lemma RecordedArePending(s: State, p: Poll)
    ensures Normal(Polled(s, p)).notified.Keys <= PendingIds(p.pending)
  {
    forall id | id in Polled(s, p).notified ensures id in PendingIds(p.pending) {
      MarkedMeaning(s, p, |p.pending|, id);
      if ServedBefore(s, p, |p.pending|, id) {
        var i: nat, j: nat :| i < |p.pending| && Sent(s, p, i, j) && p.pending[i].id == id;
        assert p.pending[i] in p.pending;
      }
    }
  }

  // ---------------------------------------------------------------- who is subscribed

  predicate HasKey(subs: seq<Subscription>, key: string) {
    exists i :: 0 <= i < |subs| && KeyOf(subs[i]) == key
  }

  /** Someone is subscribed under the key when the n-th event comes. */
  predicate Subscribed(views: seq<State>, n: nat, key: string) {
    n < |views| && HasKey(views[n].subscribers, key)
  }

  /** The event subscribes a target whose key, read back, is the given one. */
  predicate Adds(e: Event, key: string) {
    (e.Enable? || e.Arm?) && Key(NormalTarget(e.target)) == key
  }

  /** Reading back only drops and normalises; every subscription stems from a written one. */
  lemma {:induction false} NormalStems(subs: seq<Subscription>, i: nat) returns (k: nat)
    requires i < |NormalSubscribers(subs)|
    ensures k < |subs| && NormalSubscribers(subs)[i] == NormalSubscription(subs[k])
  {
    var init := subs[..|subs| - 1];
    if i < |NormalSubscribers(init)| {
      k := NormalStems(init, i);
    } else {
      k := |subs| - 1;
    }
  }

  lemma {:induction false} WithoutStems(subs: seq<Subscription>, keys: set<string>, i: nat)
    requires i < |Without(subs, keys)|
    ensures Without(subs, keys)[i] in subs && KeyOf(Without(subs, keys)[i]) !in keys
  {
    if i < |Without(subs[..|subs| - 1], keys)| { WithoutStems(subs[..|subs| - 1], keys, i); }
  }

  /** The subscription an event writes, if it is a subscribing event. */
  predicate Writes(e: Event, s: Subscription) {
    || (e.Enable? && s == Subscription(e.target, Persistent, e.now))
    || (e.Arm? && s == Subscription(e.target, Once, e.now))
  }

  lemma AfterStems(s: State, e: Event, i: nat)
    requires i < |After(s, e).subscribers|
    ensures After(s, e).subscribers[i] in s.subscribers || Writes(e, After(s, e).subscribers[i])
  {
    if e.Tick? { WithoutStems(s.subscribers, OneShotsServed(s, e.poll, |e.poll.pending|), i); }
  }

  /** A subscription in the next view was there before or was written by the event. */
  lemma ViewStems(s: State, e: Event, i: nat)
    requires AllSettled(s.subscribers) && i < |Normal(After(s, e)).subscribers|
    ensures var sub := Normal(After(s, e)).subscribers[i];
            || sub in s.subscribers
            || exists w :: Writes(e, w) && sub == NormalSubscription(w)
  {
    var k := NormalStems(After(s, e).subscribers, i);
    AfterStems(s, e, k);
    var w := After(s, e).subscribers[k];
    if w in s.subscribers { assert NormalSubscription(w) == w; }
  }

  lemma ViewIsSettled(views: seq<State>, events: seq<Event>, n: nat)
    requires IsRun(views, events) && n <= |events|
    ensures AllSettled(views[n].subscribers)
  {
    if n == 0 {
      NormalIsFixed(views[0]);
    } else {
      assert IsStep(views, events, n - 1);
      NormalIsFixed(After(views[n - 1], events[n - 1]));
    }
  }

  lemma KeyStep(views: seq<State>, events: seq<Event>, n: nat, key: string)
    requires IsRun(views, events) && n < |events| && !Subscribed(views, n, key) && !Adds(events[n], key)
    ensures !Subscribed(views, n + 1, key)
  {
    ViewIsSettled(views, events, n);
    assert IsStep(views, events, n);
    var subs := views[n + 1].subscribers;
    forall i | 0 <= i < |subs| ensures KeyOf(subs[i]) != key {
      ViewStems(views[n], events[n], i);
    }
  }

  /** A key that is not subscribed stays so until a command adds it. */
  lemma {:induction false} KeyStaysAway(views: seq<State>, events: seq<Event>, from: nat, to: nat, key: string)
    requires IsRun(views, events) && from <= to <= |events| && !Subscribed(views, from, key)
    requires forall e :: from <= e < to ==> !Adds(events[e], key)
    ensures !Subscribed(views, to, key)
  {
    if from < to {
      KeyStaysAway(views, events, from, to - 1, key);
      KeyStep(views, events, to - 1, key);
    }
  }

  /** One of the events from..to is a command that subscribes the key. */
  ghost predicate AddedBetween(events: seq<Event>, from: nat, to: nat, key: string)
    requires to <= |events|
  {
    exists e :: from <= e < to && Adds(events[e], key)
  }

  lemma KeyNeedsAdding(views: seq<State>, events: seq<Event>, from: nat, to: nat, key: string)
    requires IsRun(views, events) && from <= to <= |events|
    requires !Subscribed(views, from, key) && Subscribed(views, to, key)
    ensures AddedBetween(events, from, to, key)
  {
    if forall e :: from <= e < to ==> !Adds(events[e], key) {
      KeyStaysAway(views, events, from, to, key);
    }
  }

  // ---------------------------------------------------------------- one-shot subscriptions

  /** A poll that serves a one-shot subscription leaves nobody with its key. */
  lemma ServedOneShotGoes(s: State, p: Poll, i: nat, j: nat)
    requires AllSettled(s.subscribers) && Sent(s, p, i, j) && s.subscribers[j].mode == Once
    ensures !HasKey(Normal(Polled(s, p)).subscribers, KeyOf(s.subscribers[j]))
  {
    var keys := OneShotsServed(s, p, |p.pending|);
    var left := Polled(s, p).subscribers;
    assert KeyOf(s.subscribers[j]) in keys;
    forall k: nat | k < |Normal(Polled(s, p)).subscribers|
      ensures KeyOf(Normal(Polled(s, p)).subscribers[k]) != KeyOf(s.subscribers[j])
    {
      var m := NormalStems(left, k);
      WithoutStems(s.subscribers, keys, m);
      assert NormalSubscription(left[m]) == left[m];
    }
  }

  /** Event k is a poll that tries a request for a subscriber with the key. */
  ghost predicate TriesKey(views: seq<State>, events: seq<Event>, k: nat, key: string) {
    && k < |events| && k < |views| && events[k].Tick?
    && exists i: nat, j: nat :: Tried(views[k], events[k].poll, i, j)
                                && KeyOf(views[k].subscribers[j]) == key
  }

  /** Event k is a poll that delivers a request to a one-shot subscriber with the key. */
  ghost predicate ServesOneShot(views: seq<State>, events: seq<Event>, k: nat, key: string) {
    && k < |events| && k < |views| && events[k].Tick?
    && exists i: nat, j: nat :: Sent(views[k], events[k].poll, i, j)
                                && views[k].subscribers[j].mode == Once
                                && KeyOf(views[k].subscribers[j]) == key
  }

  lemma TriedNeedsAdding(views: seq<State>, events: seq<Event>, from: nat, m: nat, key: string)
    requires IsRun(views, events) && from <= m && !Subscribed(views, from, key) && TriesKey(views, events, m, key)
    ensures AddedBetween(events, from, m, key)
  {
    KeyNeedsAdding(views, events, from, m, key);
  }

  lemma ServedKeyGoes(views: seq<State>, events: seq<Event>, k: nat, key: string)
    requires IsRun(views, events) && ServesOneShot(views, events, k, key)
    ensures !Subscribed(views, k + 1, key)
  {
    var i: nat, j: nat :| Sent(views[k], events[k].poll, i, j)
                          && views[k].subscribers[j].mode == Once
                          && KeyOf(views[k].subscribers[j]) == key;
    ViewIsSettled(views, events, k);
    assert IsStep(views, events, k);
    ServedOneShotGoes(views[k], events[k].poll, i, j);
  }

  /**
   * All deliveries of a one-shot subscription fall into one tick: a later send to its key needs a command in
   * between that subscribes the key again.
   */
  lemma OneShotSpentInOneTick(views: seq<State>, events: seq<Event>, key: string, k: nat, m: nat)
    requires IsRun(views, events) && k < m && ServesOneShot(views, events, k, key) && TriesKey(views, events, m, key)
    ensures AddedBetween(events, k + 1, m, key)
  {
    ServedKeyGoes(views, events, k, key);
    TriedNeedsAdding(views, events, k + 1, m, key);
  }

  /** A one-shot subscription was armed at the time it carries, by one of the first n events or before the run. */
  ghost predicate ArmedAt(views: seq<State>, events: seq<Event>, n: nat, sub: Subscription)
    requires n <= |events| && |views| > 0
  {
    || sub in views[0].subscribers
    || exists e :: 0 <= e < n && events[e].Arm?
        && sub == Subscription(NormalTarget(events[e].target), Once, events[e].now)
  }

  lemma ArmedStep(s: State, e: Event, after: State, sub: Subscription)
    requires AllSettled(s.subscribers) && after == Normal(After(s, e)) && sub in after.subscribers && sub.mode == Once
    ensures sub in s.subscribers || (e.Arm? && sub == Subscription(NormalTarget(e.target), Once, e.now))
  {
    var j :| 0 <= j < |after.subscribers| && after.subscribers[j] == sub;
    ViewStems(s, e, j);
  }

  lemma {:induction false} OneShotWasArmed(views: seq<State>, events: seq<Event>, n: nat, sub: Subscription)
    requires IsRun(views, events) && n <= |events| && sub in views[n].subscribers && sub.mode == Once
    ensures ArmedAt(views, events, n, sub)
  {
    if n > 0 {
      ViewIsSettled(views, events, n - 1);
      ViewAfter(views, events, n);
      ArmedStep(views[n - 1], events[n - 1], views[n], sub);
      if sub in views[n - 1].subscribers { OneShotWasArmed(views, events, n - 1, sub); }
    }
  }

  /** A one-shot subscription only hears of requests created since it was armed. */
  lemma OneShotHearsOnlyNew(views: seq<State>, events: seq<Event>, p: Poll, i: nat, j: nat)
    requires IsRun(views, events) && Tried(views[|events|], p, i, j)
    requires views[|events|].subscribers[j].mode == Once
    ensures ArmedAt(views, events, |events|, views[|events|].subscribers[j])
    ensures p.pending[i].ts.Some? && p.pending[i].ts.value >= views[|events|].subscribers[j].addedAtMs
  {
    OneShotWasArmed(views, events, |events|, views[|events|].subscribers[j]);
  }

  // ---------------------------------------------------------------- unique keys

  ghost predicate UniqueKeys(subs: seq<Subscription>) {
    forall i, k :: 0 <= i < k < |subs| ==> KeyOf(subs[i]) != KeyOf(subs[k])
  }

  /** Subscriber j is a one-shot that the poll serves. */
  ghost predicate IsServedOneShot(s: State, p: Poll, j: nat)
    requires j < |s.subscribers|
  {
    s.subscribers[j].mode == Once && exists i: nat :: Sent(s, p, i, j)
  }

  /** The subscribers that a poll must keep: all but the one-shots it served. */
  ghost function Kept(s: State, p: Poll, n: nat): seq<Subscription>
    requires n <= |s.subscribers|
  {
    if n == 0 then []
    else Kept(s, p, n - 1)
         + if IsServedOneShot(s, p, n - 1) then [] else [s.subscribers[n - 1]]
  }

  lemma {:induction false} WithoutServedIsKept(s: State, p: Poll, n: nat)
    requires UniqueKeys(s.subscribers) && n <= |s.subscribers|
    ensures Without(s.subscribers[..n], OneShotsServed(s, p, |p.pending|)) == Kept(s, p, n)
  {
    if n > 0 {
      WithoutServedIsKept(s, p, n - 1);
      WithoutNext(s.subscribers, n, OneShotsServed(s, p, |p.pending|));
      ServedKeyIff(s, p, n - 1);
    }
  }

  lemma WithoutNext(subs: seq<Subscription>, n: nat, keys: set<string>)
    requires 0 < n <= |subs|
    ensures Without(subs[..n], keys)
         == Without(subs[..n - 1], keys) + if KeyOf(subs[n - 1]) in keys then [] else [subs[n - 1]]
  {
    assert subs[..n][..n - 1] == subs[..n - 1];
  }

  lemma ServedKeyIff(s: State, p: Poll, k: nat)
    requires UniqueKeys(s.subscribers) && k < |s.subscribers|
    ensures KeyOf(s.subscribers[k]) in OneShotsServed(s, p, |p.pending|) <==> IsServedOneShot(s, p, k)
  {
    if KeyOf(s.subscribers[k]) in OneShotsServed(s, p, |p.pending|) {
      var i, j :| 0 <= i < |p.pending| && 0 <= j < |s.subscribers| && Sent(s, p, i, j)
                  && s.subscribers[j].mode == Once && KeyOf(s.subscribers[k]) == KeyOf(s.subscribers[j]);
      assert j == k;
    }
  }

  /** With unique keys a poll removes exactly the one-shot subscriptions it served. */
  lemma ExactlyServedOneShotsGo(s: State, p: Poll)
    requires UniqueKeys(s.subscribers)
    ensures Polled(s, p).subscribers == Kept(s, p, |s.subscribers|)
  {
    WithoutServedIsKept(s, p, |s.subscribers|);
    assert s.subscribers[..|s.subscribers|] == s.subscribers;
  }

  // ---------------------------------------------------------------- keys stay unique

  lemma {:induction false} WithoutKeepsUnique(subs: seq<Subscription>, keys: set<string>)
    requires UniqueKeys(subs)
    ensures UniqueKeys(Without(subs, keys))
  {
    if subs != [] {
      var init, last := subs[..|subs| - 1], subs[|subs| - 1];
      WithoutKeepsUnique(init, keys);
      forall i: nat | i < |Without(init, keys)| ensures KeyOf(Without(init, keys)[i]) != KeyOf(last) {
        WithoutStems(init, keys, i);
      }
    }
  }

  /** The subscribers whose key differs from the target's have a key that differs from it when read back, too. */
  predicate FreeKey(subs: seq<Subscription>, target: Target) {
    forall i :: 0 <= i < |subs| && KeyOf(subs[i]) == Key(NormalTarget(target)) ==> KeyOf(subs[i]) == Key(target)
  }

  /** The upsert finds a subscription of the same mode and leaves the list alone. */
  predicate Unchanged(subs: seq<Subscription>, target: Target, mode: Mode) {
    var index := FindKey(subs, Key(target));
    index.Some? && subs[index.value].mode == mode
  }

  lemma NormalOfLast(init: seq<Subscription>, s: Subscription)
    requires JsTrim(s.target.to) != ""
    ensures NormalSubscribers(init + [s]) == NormalSubscribers(init) + [NormalSubscription(s)]
  {
    assert (init + [s])[..|init|] == init;
  }

  lemma UpdateInside<T>(init: seq<T>, last: T, k: nat, t: T)
    requires k < |init|
    ensures (init + [last])[k := t] == init[k := t] + [last]
  {}

  lemma UpdateLast<T>(init: seq<T>, last: T, t: T)
    ensures (init + [last])[|init| := t] == init + [t]
  {}

  lemma NormalOfSettled(init: seq<Subscription>, last: Subscription)
    requires Settled(last.target)
    ensures NormalSubscribers(init + [last]) == NormalSubscribers(init) + [last]
  {
    assert (init + [last])[..|init|] == init;
    SettledKept(last);
  }

  lemma {:induction false} NormalOfUpdate(subs: seq<Subscription>, k: nat, s: Subscription)
    requires AllSettled(subs) && k < |subs| && JsTrim(s.target.to) != ""
    ensures NormalSubscribers(subs[k := s]) == subs[k := NormalSubscription(s)]
  {
    var init, last := subs[..|subs| - 1], subs[|subs| - 1];
    assert subs == init + [last];
    if k == |init| {
      UpdateLast(init, last, s);
      UpdateLast(init, last, NormalSubscription(s));
      SettledIsNormal(init);
      NormalOfLast(init, s);
    } else {
      NormalOfUpdate(init, k, s);
      UpdateInside(init, last, k, s);
      UpdateInside(init, last, k, NormalSubscription(s));
      NormalOfSettled(init[k := s], last);
    }
  }

  function Put(subs: seq<Subscription>, index: Option<nat>, s: Subscription): seq<Subscription>
    requires index.Some? ==> index.value < |subs|
  {
    if index.None? then subs + [s] else subs[index.value := s]
  }

  lemma PutIsUniqueIff(subs: seq<Subscription>, index: Option<nat>, s: Subscription)
    requires index.Some? ==> index.value < |subs|
    requires UniqueKeys(subs)
    ensures UniqueKeys(Put(subs, index, s))
       <==> forall i :: 0 <= i < |subs| && index != Some(i) ==> KeyOf(subs[i]) != KeyOf(s)
  {
    var at, all := if index.None? then |subs| else index.value, Put(subs, index, s);
    assert all[at] == s && forall i :: 0 <= i < |subs| && i != at ==> all[i] == subs[i];
    if UniqueKeys(all) {
      forall i | 0 <= i < |subs| && index != Some(i) ensures KeyOf(subs[i]) != KeyOf(s) {
        assert all[i] == subs[i];
      }
    }
  }

  /** What is read back after an upsert. */
  lemma NormalOfUpserted(subs: seq<Subscription>, target: Target, mode: Mode, now: int)
    requires AllSettled(subs) && JsTrim(target.to) != ""
    ensures NormalSubscribers(Upserted(subs, target, mode, now))
         == if Unchanged(subs, target, mode) then subs
            else Put(subs, FindKey(subs, Key(target)), NormalSubscription(Subscription(target, mode, now)))
  {
    var index, next := FindKey(subs, Key(target)), Subscription(target, mode, now);
    SettledIsNormal(subs);
    if index.None? {
      assert (subs + [next])[..|subs|] == subs;
    } else if subs[index.value].mode != mode {
      NormalOfUpdate(subs, index.value, next);
    }
  }

  /**
   * Subscribing keeps the keys unique exactly when it changes nothing, or when no other subscriber has the key that
   * the target gets on reading back.
   */
  lemma UpsertKeepsUniqueIff(subs: seq<Subscription>, target: Target, mode: Mode, now: int)
    requires AllSettled(subs) && UniqueKeys(subs) && JsTrim(target.to) != ""
    ensures UniqueKeys(NormalSubscribers(Upserted(subs, target, mode, now)))
       <==> Unchanged(subs, target, mode) || FreeKey(subs, target)
  {
    NormalOfUpserted(subs, target, mode, now);
    PutIsUniqueIff(subs, FindKey(subs, Key(target)), NormalSubscription(Subscription(target, mode, now)));
    OnlyFound(subs, target);
  }

  lemma OnlyFound(subs: seq<Subscription>, target: Target)
    requires UniqueKeys(subs)
    ensures FreeKey(subs, target)
       <==> forall i :: 0 <= i < |subs| && FindKey(subs, Key(target)) != Some(i) ==>
              KeyOf(subs[i]) != Key(NormalTarget(target))
  {
    forall i | 0 <= i < |subs| ensures KeyOf(subs[i]) == Key(target) <==> FindKey(subs, Key(target)) == Some(i) {}
  }

  /** Every subscribing command of the run carries a target that reading back leaves alone. */
  predicate SettledCommands(events: seq<Event>) {
    forall e :: 0 <= e < |events| && (events[e].Enable? || events[e].Arm?) ==> Settled(events[e].target)
  }

  lemma StepKeepsUnique(s: State, e: Event)
    requires AllSettled(s.subscribers) && UniqueKeys(s.subscribers)
    requires e.Enable? || e.Arm? ==> Settled(e.target)
    ensures UniqueKeys(Normal(After(s, e)).subscribers)
  {
    match e {
      case Tick(p) =>
        WithoutKeepsUnique(s.subscribers, OneShotsServed(s, p, |p.pending|));
        StemsAreSettled(s, e);
      case Enable(target, now) => UpsertKeepsUniqueIff(s.subscribers, target, Persistent, now);
      case Arm(target, now) => UpsertKeepsUniqueIff(s.subscribers, target, Once, now);
      case Disable(target) => StemsAreSettled(s, e);
    }
  }

  /** The keys are unique when the n-th event comes. */
  ghost predicate UniqueAt(views: seq<State>, n: nat) {
    n < |views| && UniqueKeys(views[n].subscribers)
  }

  lemma NextIsUnique(views: seq<State>, events: seq<Event>, n: nat)
    requires IsRun(views, events) && n < |events| && SettledCommands(events) && UniqueAt(views, n)
    ensures UniqueAt(views, n + 1)
  {
    ViewIsSettled(views, events, n);
    assert IsStep(views, events, n);
    StepKeepsUnique(views[n], events[n]);
  }

  /** Keys that are unique at the start stay unique. */
  lemma {:induction false} KeysStayUnique(views: seq<State>, events: seq<Event>, n: nat)
    requires IsRun(views, events) && n <= |events| && SettledCommands(events) && UniqueAt(views, 0)
    ensures UniqueAt(views, n)
  {
    if n > 0 {
      KeysStayUnique(views, events, n - 1);
      NextIsUnique(views, events, n - 1);
    }
  }

  lemma StemsAreSettled(s: State, e: Event)
    requires AllSettled(s.subscribers) && (e.Tick? || e.Disable?)
    ensures Normal(After(s, e)).subscribers == After(s, e).subscribers
  {
    forall i: nat | i < |After(s, e).subscribers| ensures Settled(After(s, e).subscribers[i].target) {
      AfterStems(s, e, i);
    }
    SettledIsNormal(After(s, e).subscribers);
  }

  lemma {:induction false} JsTrimLeftShorter(text: string)
    ensures |JsTrimLeft(text)| <= |text| && (|JsTrimLeft(text)| == |text| ==> JsTrimLeft(text) == text)
  {
    if text != "" && IsJsSpace(text[0]) { JsTrimLeftShorter(text[1..]); }
  }

  lemma {:induction false} JsTrimShorter(text: string)
    ensures |JsTrim(text)| <= |text| && (|JsTrim(text)| == |text| ==> JsTrim(text) == text)
  {
    if text != "" && IsJsSpace(text[|text| - 1]) {
      JsTrimShorter(text[..|text| - 1]);
    } else {
      JsTrimLeftShorter(text);
    }
  }

  /** A resolved target keeps its key on reading back exactly when it is settled: only its account id can change. */
  lemma ResolvedKeyIff(ctx: Context)
    requires ResolveTarget(ctx).Some?
    ensures Key(NormalTarget(ResolveTarget(ctx).value)) == Key(ResolveTarget(ctx).value)
           <==> Settled(ResolveTarget(ctx).value)
    ensures JsTrim(ResolveTarget(ctx).value.to) != ""
  {
    var t := ResolveTarget(ctx).value;
    ResolvedIsTrimmed(ctx);
    if t.accountId.Some? { JsTrimShorter(t.accountId.value); }
    assert |Key(NormalTarget(t))| == |Key(t)| <==> NormalTarget(t).accountId == t.accountId;
  }

  lemma ResolvedIsTrimmed(ctx: Context)
    requires ResolveTarget(ctx).Some?
    ensures JsTrim(ResolveTarget(ctx).value.to) == ResolveTarget(ctx).value.to
  {
    var originals := [ctx.senderId, ctx.from, ctx.to];
    forall i | 0 <= i < 3 && originals[i].Some?
      ensures JsTrim(JsTrim(originals[i].value)) == JsTrim(originals[i].value)
    {
      JsTrimIsTrimmed(originals[i].value);
      JsTrimIsTrimmed(JsTrim(originals[i].value));
    }
    assert originals[0] == ctx.senderId && originals[1] == ctx.from && originals[2] == ctx.to;
  }

  /**
   * From an empty file, switching notifications on twice in one chat subscribes it once when the account id reads
   * back unchanged, and twice under one key otherwise.
   */
  lemma EnablingTwiceIff(ctx: Context, target: Target, t1: int, t2: int, views: seq<State>)
    requires ResolveTarget(ctx) == Some(target)
    requires IsRun(views, [Enable(target, t1), Enable(target, t2)]) && views[0] == State([], map[])
    ensures UniqueAt(views, 2) <==> Settled(target)
  {
    ResolvedKeyIff(ctx);
    var events := [Enable(target, t1), Enable(target, t2)];
    assert IsStep(views, events, 0) && IsStep(views, events, 1);
    NormalOfUpserted([], target, Persistent, t1);
    ViewIsSettled(views, events, 1);
    assert views[1].subscribers == [NormalSubscription(Subscription(target, Persistent, t1))];
    SecondEnable(views[1].subscribers, target, t1, t2);
  }

  lemma SecondEnable(subs: seq<Subscription>, target: Target, t1: int, t2: int)
    requires AllSettled(subs) && JsTrim(target.to) != ""
    requires subs == [NormalSubscription(Subscription(target, Persistent, t1))]
    ensures UniqueKeys(NormalSubscribers(Upserted(subs, target, Persistent, t2)))
           <==> Key(NormalTarget(target)) == Key(target)
  {
    UpsertKeepsUniqueIff(subs, target, Persistent, t2);
    assert KeyOf(subs[0]) == Key(NormalTarget(target)) && subs[0].mode == Persistent;
  }

  predicate Disables(events: seq<Event>, k: nat, key: string) {
    k < |events| && events[k].Disable? && Key(events[k].target) == key
  }

  lemma DisabledKeyGoes(views: seq<State>, events: seq<Event>, k: nat, key: string)
    requires IsRun(views, events) && Disables(events, k, key) && SettledCommands(events) && UniqueAt(views, 0)
    ensures !Subscribed(views, k + 1, key)
  {
    KeysStayUnique(views, events, k);
    ViewIsSettled(views, events, k);
    assert IsStep(views, events, k);
    StemsAreSettled(views[k], events[k]);
    RemovedIsGone(views[k].subscribers, key);
  }

  /** After an `off` nobody has the key of the target, until a command adds it again. */
  lemma DisabledIsSilent(views: seq<State>, events: seq<Event>, key: string, k: nat, m: nat)
    requires IsRun(views, events) && SettledCommands(events) && UniqueAt(views, 0)
    requires k < m && Disables(events, k, key) && TriesKey(views, events, m, key)
    ensures AddedBetween(events, k + 1, m, key)
  {
    DisabledKeyGoes(views, events, k, key);
    TriedNeedsAdding(views, events, k + 1, m, key);
  }

  lemma RemovedIsGone(subs: seq<Subscription>, key: string)
    requires UniqueKeys(subs)
    ensures !HasKey(Removed(subs, key), key)
  {
    var index, left := FindKey(subs, key), Removed(subs, key);
    if index.Some? {
      forall i | 0 <= i < |left| ensures KeyOf(left[i]) != key {
        assert left[i] == subs[if i < index.value then i else i + 1];
      }
    }
  }
}
