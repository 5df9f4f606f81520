/**
The login and password-change limiters (auth/api.go): one algorithm with a window and a maximum, 15
minutes and 8 or 3. Times are in nanoseconds of a clock that does not run backwards. Successful calls
reset their client.
*/
module RateLimit {
  import opened Wrappers

  datatype Attempt = Attempt(count: nat, blocked: Option<int>, last: Option<int>)

  const FRESH := Attempt(0, None, None)

  datatype Rule = Rule(window: nat, max: nat)

  /** An attempt of a client, or its reset after a success. */
  datatype Event = Event(client: string, now: int, reset: bool)

  const MINUTE := 60_000_000_000
  const LOGIN := Rule(15 * MINUTE, 8)
  const PASSWORD_CHANGE := Rule(15 * MINUTE, 3)

  // ---------------------------------------------------------------- one client on its own

  predicate Stale(rule: Rule, a: Attempt, now: int) {
    a.last.None? || now - a.last.value > rule.window
  }

  /** The decision on one attempt of a client, and what is remembered of it. */
  function Judge(rule: Rule, a: Attempt, now: int): (bool, Attempt) {
    if a.blocked.Some? && now < a.blocked.value then (false, a)
    else
      var count := if Stale(rule, a, now) then 0 else a.count;
      if count >= rule.max then (false, Attempt(count, Some(now + rule.window), Some(now)))
      else (true, Attempt(count + 1, a.blocked, Some(now)))
  }

  /** What a limiter for this client alone remembers after these events; it never forgets anything. */
  function Track(rule: Rule, events: seq<Event>, client: string): Attempt {
    if events == [] then FRESH
    else
      var before, e := Track(rule, events[..|events| - 1], client), events[|events| - 1];
      if e.client != client then before else if e.reset then FRESH else Judge(rule, before, e.now).1
  }

  /** Its decision on the k-th event, an attempt. */
  function Decision(rule: Rule, events: seq<Event>, k: nat): bool
    requires k < |events|
  {
    Judge(rule, Track(rule, events[..k], events[k].client), events[k].now).0
  }

  predicate Monotone(events: seq<Event>) {
    forall i, j | 0 <= i < j < |events| :: events[i].now <= events[j].now
  }

  /** A block ends one window after the attempt that caused it; nothing is remembered from the future. */
  ghost predicate Sane(rule: Rule, a: Attempt, now: int) {
    && (a.blocked.Some? ==> a.last.Some? && a.blocked.value <= a.last.value + rule.window)
    && (a.last.Some? ==> a.last.value <= now)
  }

  lemma {:induction false} TrackIsSane(rule: Rule, events: seq<Event>, client: string, now: int)
    requires Monotone(events) && forall e | e in events :: e.now <= now
    ensures Sane(rule, Track(rule, events, client), now)
  {
    if events != [] {
      TrackIsSane(rule, events[..|events| - 1], client, events[|events| - 1].now);
    }
  }

  // ---------------------------------------------------------------- the sliding window

  /** Accepted attempts of a client since its last reset, from a point in time on, up to another. */
  function Accepted(rule: Rule, events: seq<Event>, client: string, from: int, to: int): nat {
    if events == [] || (events[|events| - 1].client == client && events[|events| - 1].reset) then 0
    else
      var n := |events| - 1;
      Accepted(rule, events[..n], client, from, to)
      + if events[n].client == client && from <= events[n].now <= to && Decision(rule, events, n) then 1 else 0
  }

  /** What still counts against the client at a time. */
  function Effective(rule: Rule, a: Attempt, now: int): nat {
    if Stale(rule, a, now) then 0 else a.count
  }

  lemma {:induction false} NoneAccepted(rule: Rule, events: seq<Event>, client: string, from: int, to: int)
    requires forall e | e in events :: e.now < from
    ensures Accepted(rule, events, client, from, to) == 0
  {
    if events != [] {
      NoneAccepted(rule, events[..|events| - 1], client, from, to);
    }
  }

  lemma {:induction false} FewerAccepted(rule: Rule, events: seq<Event>, client: string, from: int, to: int, from': int, to': int)
    requires from <= from' && to' <= to
    ensures Accepted(rule, events, client, from', to') <= Accepted(rule, events, client, from, to)
  {
    if events != [] {
      FewerAccepted(rule, events[..|events| - 1], client, from, to, from', to');
    }
  }

  lemma JudgeCounts(rule: Rule, a: Attempt, now: int, t: int, accepted: nat)
    requires now <= t <= now + rule.window && accepted <= Effective(rule, a, now) && accepted <= Effective(rule, a, t)
    ensures accepted + (if Judge(rule, a, now).0 then 1 else 0) <= Effective(rule, Judge(rule, a, now).1, t)
  {
  }

  /** The counter bounds the accepted attempts of the last window, now and later. */
  lemma {:induction false} CounterBounds(rule: Rule, events: seq<Event>, client: string, t: int)
    requires Monotone(events) && forall e | e in events :: e.now <= t
    ensures Accepted(rule, events, client, t - rule.window, t) <= Effective(rule, Track(rule, events, client), t)
  {
    if events != [] {
      var front, e := events[..|events| - 1], events[|events| - 1];
      assert forall k | 0 <= k < |front| :: front[k] == events[k];
      if t - e.now > rule.window {
        NoneAccepted(rule, events, client, t - rule.window, t);
      } else {
        CounterBounds(rule, front, client, t);
        if e.client == client && !e.reset {
          CounterBounds(rule, front, client, e.now);
          FewerAccepted(rule, front, client, e.now - rule.window, t, t - rule.window, t);
          NoLaterAccepted(rule, front, client, e.now - rule.window, e.now, t);
          JudgeCounts(rule, Track(rule, front, client), e.now, t, Accepted(rule, front, client, t - rule.window, t));
        }
      }
    }
  }

  lemma {:induction false} NoLaterAccepted(rule: Rule, events: seq<Event>, client: string, from: int, now: int, t: int)
    requires now <= t && forall e | e in events :: e.now <= now
    ensures Accepted(rule, events, client, from, t) == Accepted(rule, events, client, from, now)
  {
    if events != [] {
      NoLaterAccepted(rule, events[..|events| - 1], client, from, now, t);
    }
  }

  /**
   Sliding window: no interval as long as the window holds more accepted attempts of a client than the
   maximum without a reset of that client between them.
   */
  lemma {:induction false} SlidingWindow(rule: Rule, events: seq<Event>, client: string, from: int)
    requires Monotone(events)
    ensures Accepted(rule, events, client, from, from + rule.window) <= rule.max
  {
    if events != [] {
      var front, e := events[..|events| - 1], events[|events| - 1];
      SlidingWindow(rule, front, client, from);
      if from <= e.now <= from + rule.window {
        CounterBounds(rule, front, client, e.now);
        NoLaterAccepted(rule, front, client, e.now - rule.window, e.now, from + rule.window);
        FewerAccepted(rule, front, client, e.now - rule.window, from + rule.window, from, from + rule.window);
      }
    }
  }

  /** A client that made no attempt within the last window is let in. */
  lemma QuietClientIsAllowed(rule: Rule, events: seq<Event>, k: nat)
    requires Monotone(events) && k < |events| && rule.max > 0
    requires forall i | 0 <= i < k && events[i].client == events[k].client && !events[i].reset ::
               events[k].now - events[i].now > rule.window
    ensures Decision(rule, events, k)
  {
    var before, client := events[..k], events[k].client;
    TrackIsSane(rule, before, client, events[k].now);
    LastIsAnEvent(rule, before, client);
  }

  lemma {:induction false} LastIsAnEvent(rule: Rule, events: seq<Event>, client: string)
    ensures var a := Track(rule, events, client);
            a.last.Some? ==> exists i | 0 <= i < |events| ::
              events[i].client == client && !events[i].reset && events[i].now == a.last.value
  {
    if events != [] {
      var front := events[..|events| - 1];
      LastIsAnEvent(rule, front, client);
      var a := Track(rule, front, client);
      if a.last.Some? {
        var i :| 0 <= i < |front| && front[i].client == client && !front[i].reset && front[i].now == a.last.value;
        assert events[i] == front[i];
      }
    }
  }

  /** The k-th event is an attempt of this client. */
  predicate AttemptOf(events: seq<Event>, client: string, k: int)
    requires 0 <= k < |events|
  {
    events[k].client == client && !events[k].reset
  }

  /** Accepted attempts of a client from one event up to another. */
  function AcceptedFrom(rule: Rule, events: seq<Event>, client: string, from: nat, end: nat): nat
    requires from <= end <= |events|
    decreases end
  {
    if from == end then 0
    else
      AcceptedFrom(rule, events, client, from, end - 1)
      + if AttemptOf(events, client, end - 1) && Decision(rule, events, end - 1) then 1 else 0
  }

  /** What the client did before this event is forgotten: a reset came after it, or a gap longer than the window does. */
  ghost predicate Rested(rule: Rule, events: seq<Event>, client: string, from: nat, to: nat)
    requires from <= to <= |events|
  {
    forall i | 0 <= i < from && AttemptOf(events, client, i) ::
      || (exists r | i < r < from :: events[r].client == client && events[r].reset)
      || (forall f | from <= f < to && AttemptOf(events, client, f) :: events[f].now - events[i].now > rule.window)
  }

  /** What is remembered before a fresh start no longer counts, and at most the accepted attempts after it do. */
  ghost predicate Forgotten(rule: Rule, events: seq<Event>, client: string, from: nat, to: nat, n: nat)
    requires from <= n <= to <= |events|
  {
    var a := Track(rule, events[..n], client);
    || (forall f | n <= f < to && AttemptOf(events, client, f) ::
          Stale(rule, a, events[f].now) && (a.blocked.Some? ==> a.blocked.value <= events[f].now))
    || (a.count <= AcceptedFrom(rule, events, client, from, n)
        && forall f | n <= f < to && AttemptOf(events, client, f) :: a.blocked.Some? ==> a.blocked.value <= events[f].now)
  }

  lemma {:induction false} StartsForgotten(rule: Rule, events: seq<Event>, client: string, from: nat, to: nat)
    requires Monotone(events) && from <= to <= |events| && Rested(rule, events, client, from, to)
    ensures Forgotten(rule, events, client, from, to, from)
  {
    var before := events[..from];
    var a := Track(rule, before, client);
    LastSinceReset(rule, before, client);
    if a.last.Some? {
      var i :| 0 <= i < from && SinceReset(before, client, i) && before[i].now == a.last.value;
      assert AttemptOf(events, client, i) && forall r | i < r < from :: before[r] == events[r];
    }
    forall f | from <= f < to && AttemptOf(events, client, f)
      ensures Stale(rule, a, events[f].now) && (a.blocked.Some? ==> a.blocked.value <= events[f].now)
    {
      TrackIsSane(rule, before, client, events[f].now);
    }
  }

  /** An attempt of the client with no reset after it. */
  predicate SinceReset(events: seq<Event>, client: string, i: int)
    requires 0 <= i < |events|
  {
    AttemptOf(events, client, i) && forall r | i < r < |events| :: !(events[r].client == client && events[r].reset)
  }

  lemma {:induction false} LastSinceReset(rule: Rule, events: seq<Event>, client: string)
    ensures var a := Track(rule, events, client);
            a.last.Some? ==> exists i | 0 <= i < |events| :: SinceReset(events, client, i) && events[i].now == a.last.value
  {
    if events != [] {
      var n := |events| - 1;
      var front, e := events[..n], events[n];
      LastSinceReset(rule, front, client);
      var a, b := Track(rule, front, client), Track(rule, events, client);
      if b.last.Some? {
        if e.client == client && b.last == Some(e.now) {
          assert SinceReset(events, client, n);
        } else {
          assert b.last == a.last && !(e.client == client && e.reset);
          var i :| 0 <= i < n && SinceReset(front, client, i) && front[i].now == a.last.value;
          assert forall r | i <= r < n :: front[r] == events[r];
          assert SinceReset(events, client, i);
        }
      }
    }
  }

  lemma StaysForgotten(rule: Rule, events: seq<Event>, client: string, from: nat, to: nat, n: nat)
    requires Monotone(events) && from <= n < to <= |events| && Forgotten(rule, events, client, from, to, n)
    requires AcceptedFrom(rule, events, client, from, n) < rule.max
    ensures Forgotten(rule, events, client, from, to, n + 1)
    ensures AttemptOf(events, client, n) ==> Decision(rule, events, n)
  {
    assert events[..n + 1][..n] == events[..n];
  }

  /**
   Nobody is refused early: a client with fewer accepted attempts than the maximum since its last reset, or since a
   pause longer than the window, is let in.
   */
  lemma FewAttemptsAreAllowed(rule: Rule, events: seq<Event>, from: nat, k: nat)
    requires Monotone(events) && from <= k < |events|
    requires Rested(rule, events, events[k].client, from, k + 1) && !events[k].reset
    requires AcceptedFrom(rule, events, events[k].client, from, k) < rule.max
    ensures Decision(rule, events, k)
  {
    ForgottenUpTo(rule, events, events[k].client, from, k + 1, k);
    StaysForgotten(rule, events, events[k].client, from, k + 1, k);
  }

  lemma {:induction false} ForgottenUpTo(rule: Rule, events: seq<Event>, client: string, from: nat, to: nat, n: nat)
    requires Monotone(events) && from <= n < to <= |events| && Rested(rule, events, client, from, to)
    requires AcceptedFrom(rule, events, client, from, n) < rule.max
    ensures Forgotten(rule, events, client, from, to, n)
  {
    if n == from {
      StartsForgotten(rule, events, client, from, to);
    } else {
      ForgottenUpTo(rule, events, client, from, to, n - 1);
      StaysForgotten(rule, events, client, from, to, n - 1);
    }
  }

  /**
   Trying on while blocked does not prolong a block: a refused client that was not blocked before is let in once a
   window has passed, whatever it tried in between.
   */
  lemma BlockEnds(rule: Rule, events: seq<Event>, j: nat, k: nat)
    requires Monotone(events) && rule.max > 0 && j < k < |events|
    requires AttemptOf(events, events[k].client, j) && !events[k].reset && !Decision(rule, events, j)
    requires forall i | 0 <= i < j && AttemptOf(events, events[k].client, i) && !Decision(rule, events, i) ::
               events[j].now - events[i].now >= rule.window
    requires forall i | j < i < k && events[i].client == events[k].client ::
               !events[i].reset && events[i].now - events[j].now < rule.window
    requires events[k].now - events[j].now > rule.window
    ensures Decision(rule, events, k)
    ensures forall i | j < i < k && events[i].client == events[k].client :: !Decision(rule, events, i)
  {
    var client, n := events[k].client, j + 1;
    var held := Track(rule, events[..j + 1], client);
    BlocksComeFromRefusals(rule, events, client, j);
    assert events[..j + 1][..j] == events[..j];
    assert held.blocked == Some(events[j].now + rule.window) && held.last == Some(events[j].now);
    while n < k
      invariant j < n <= k && Track(rule, events[..n], client) == held
      invariant forall i | j < i < n && events[i].client == client :: !Decision(rule, events, i)
    {
      assert events[..n + 1][..n] == events[..n];
      n := n + 1;
    }
  }

  lemma {:induction false} BlocksComeFromRefusals(rule: Rule, events: seq<Event>, client: string, n: nat)
    requires n <= |events|
    ensures var a := Track(rule, events[..n], client);
            a.blocked.Some? ==> exists i | 0 <= i < n ::
              AttemptOf(events, client, i) && !Decision(rule, events, i) && a.blocked.value == events[i].now + rule.window
  {
    if n > 0 {
      BlocksComeFromRefusals(rule, events, client, n - 1);
      assert events[..n][..n - 1] == events[..n - 1];
      var a, b := Track(rule, events[..n - 1], client), Track(rule, events[..n], client);
      if b.blocked.Some? && b.blocked != a.blocked {
        assert AttemptOf(events, client, n - 1) && !Decision(rule, events, n - 1);
      }
    }
  }

  /** In numbers: eight logins or three password changes in any quarter of an hour, and no fewer. */
  lemma PanelLimits(rule: Rule, max: nat, events: seq<Event>, from: nat, k: nat, start: int)
    requires (rule, max) in {(LOGIN, 8), (PASSWORD_CHANGE, 3)}
    requires Monotone(events) && from <= k < |events| && !events[k].reset
    ensures Accepted(rule, events, events[k].client, start, start + 900_000_000_000) <= max
    ensures Rested(rule, events, events[k].client, from, k + 1) && AcceptedFrom(rule, events, events[k].client, from, k) < max ==>
              Decision(rule, events, k)
  {
    assert (rule, max).0.window == 900_000_000_000 && (rule, max).0.max == max;
    SlidingWindow(rule, events, events[k].client, start);
    if Rested(rule, events, events[k].client, from, k + 1) && AcceptedFrom(rule, events, events[k].client, from, k) < max {
      FewAttemptsAreAllowed(rule, events, from, k);
    }
  }

  // ---------------------------------------------------------------- the shared table with its sweep

  /** What is left of an attempt once what can no longer matter is dropped. */
  function Live(rule: Rule, a: Attempt, now: int): Attempt {
    if Stale(rule, a, now) then FRESH
    else a.(blocked := if a.blocked.Some? && now < a.blocked.value then a.blocked else None)
  }

  /** Dropping it changes no decision, now or later. */
  lemma LiveDecides(rule: Rule, a: Attempt, b: Attempt, now: int, later: int)
    requires Sane(rule, a, now) && Sane(rule, b, now) && Live(rule, a, now) == Live(rule, b, now) && now <= later
    ensures Live(rule, a, later) == Live(rule, b, later)
    ensures Judge(rule, a, now).0 == Judge(rule, b, now).0
    ensures Live(rule, Judge(rule, a, now).1, now) == Live(rule, Judge(rule, b, now).1, now)
  {
  }

  class Limiter {
    const rule: Rule
    var items: map<string, Attempt>

    function Remembered(client: string): Attempt
      reads this
    {
      if client in items then items[client] else FRESH
    }

    constructor (rule: Rule)
      ensures this.rule == rule && items == map[]
    {
      this.rule := rule;
      items := map[];
    }

    /** The sweep over all clients at the start of every call. */
    method Sweep(now: int)
      modifies this
      ensures items == map c | c in old(items) && !Stale(rule, old(items)[c], now) :: old(items)[c]
    {
      var todo := items.Keys;
      while todo != {}
        invariant todo <= old(items).Keys
        invariant items == map c | c in old(items) && (c in todo || !Stale(rule, old(items)[c], now)) :: old(items)[c]
        decreases todo
      {
        var c :| c in todo;
        todo := todo - {c};
        if Stale(rule, items[c], now) {
          items := items - {c};
        }
      }
    }

    /** resetLoginLimit and resetPasswordChangeLimit. */
    method Reset(client: string)
      modifies this
      ensures items == old(items) - {client}
      ensures forall c :: Remembered(c) == if c == client then FRESH else old(Remembered(c))
    {
      items := items - {client};
    }

    /** allowLogin and allowPasswordChange. */
    method Allow(client: string, now: int) returns (ok: bool)
      requires forall c | c in items :: Sane(rule, items[c], now)
      modifies this
      ensures ok == Judge(rule, old(Remembered(client)), now).0
      ensures Live(rule, Remembered(client), now) == Live(rule, Judge(rule, old(Remembered(client)), now).1, now)
      ensures forall c | c != client :: Live(rule, Remembered(c), now) == Live(rule, old(Remembered(c)), now)
      ensures forall c | c in items :: Sane(rule, items[c], now)
    {
      Sweep(now);
      assert forall c :: Live(rule, Remembered(c), now) == Live(rule, old(Remembered(c)), now);
      var attempt := Remembered(client);
      LiveDecides(rule, attempt, old(Remembered(client)), now, now);
      if attempt.blocked.Some? && now < attempt.blocked.value {
        return false;
      }
      if attempt.last.None? || now - attempt.last.value > rule.window {
        attempt := attempt.(count := 0);
      }
      attempt := attempt.(last := Some(now));
      if attempt.count >= rule.max {
        attempt := attempt.(blocked := Some(now + rule.window));
        items := items[client := attempt];
        return false;
      }
      attempt := attempt.(count := attempt.count + 1);
      items := items[client := attempt];
      return true;
    }
  }

  /** The table knows every client as a limiter of its own would after these events. */
  ghost predicate Mirrors(limiter: Limiter, past: seq<Event>, now: int)
    reads limiter
  {
    && (forall c | c in limiter.items :: Sane(limiter.rule, limiter.items[c], now))
    && (forall c: string ::
          Live(limiter.rule, limiter.Remembered(c), now) == Live(limiter.rule, Track(limiter.rule, past, c), now))
  }

  lemma MirrorsLater(limiter: Limiter, past: seq<Event>, now: int, later: int)
    requires Mirrors(limiter, past, now) && now <= later && Monotone(past) && forall e | e in past :: e.now <= now
    ensures Mirrors(limiter, past, later)
  {
  }

  /** One event on the table, compared with the client's own limiter. */
  method Attend(limiter: Limiter, ghost events: seq<Event>, i: nat, e: Event, ghost now: int) returns (ok: bool)
    requires i < |events| && e == events[i] && Monotone(events) && UpTo(events, i, now)
    requires Mirrors(limiter, events[..i], now)
    modifies limiter
    ensures Mirrors(limiter, events[..i + 1], e.now) && UpTo(events, i + 1, e.now)
    ensures e.reset || ok == Decision(limiter.rule, events, i)
  {
    ghost var past := events[..i];
    MirrorsLater(limiter, past, now, e.now);
    TrackIsSane(limiter.rule, past, e.client, e.now);
    LiveDecides(limiter.rule, limiter.Remembered(e.client), Track(limiter.rule, past, e.client), e.now, e.now);
    assert events[..i + 1][..i] == past;
    if e.reset {
      limiter.Reset(e.client);
      assert forall c: string | c != e.client :: Track(limiter.rule, events[..i + 1], c) == Track(limiter.rule, past, c);
      ok := true;
    } else {
      ok := limiter.Allow(e.client, e.now);
    }
  }

  /** The first n events happened by now, the others from now on. */
  predicate UpTo(events: seq<Event>, n: nat, now: int)
    requires n <= |events|
  {
    (forall e | e in events[..n] :: e.now <= now) && (n < |events| ==> now <= events[n].now)
  }

  /** Sharing one table and sweeping it changes nothing: every client is treated as by a limiter of its own. */
  method Run(rule: Rule, events: seq<Event>) returns (decisions: seq<bool>)
    requires Monotone(events)
    ensures |decisions| == |events|
    ensures forall k | 0 <= k < |events| && !events[k].reset :: decisions[k] == Decision(rule, events, k)
  {
    var limiter := new Limiter(rule);
    decisions := [];
    ghost var now := if events == [] then 0 else events[0].now;
    assert events[..0] == [];
    assert Mirrors(limiter, [], now);
    for i := 0 to |events|
      invariant |decisions| == i && limiter.rule == rule
      invariant forall k | 0 <= k < i && !events[k].reset :: decisions[k] == Decision(rule, events, k)
      invariant Mirrors(limiter, events[..i], now) && UpTo(events, i, now)
    {
      var ok := Attend(limiter, events, i, events[i], now);
      decisions := decisions + [ok];
      now := events[i].now;
    }
  }
}
