/** What the limits of the request log mean, each written out: how many requests of whom are
  * accepted in which window, and which limit answers a refused request.
  */
module RateTheorems {
  import opened Common
  import opened RateLimits

  /** Whose requests are counted: those of a session, of an identity, or of everyone. */
  datatype Of = OfSession(session: nat) | OfIdentity(identity: nat) | OfAll

  predicate Belongs(r: Request, who: Of) {
    (who.OfSession? ==> r.session == who.session) && (who.OfIdentity? ==> r.identity == who.identity)
  }

  /** The requests of someone in the window of a length that ends at a moment. */
  function Hits(log: seq<Request>, who: Of, windowMs: int, end: Time): (n: nat) {
    if log == [] then 0
    else
      var r := log[|log| - 1];
      Hits(log[..|log| - 1], who, windowMs, end) + if Belongs(r, who) && end - windowMs < r.at <= end then 1 else 0
  }

  function ScopeOf(who: Of): Scope {
    match who
    case OfSession(s) => Session(s)
    case OfIdentity(i) => Identity(i)
    case OfAll => Everyone
  }

  lemma {:induction false} HitsAreWithin(log: seq<Request>, who: Of, windowMs: int, end: Time)
    ensures |Within(log, ScopeOf(who), windowMs, end)| == Hits(log, who, windowMs, end)
  {
    if log != [] { HitsAreWithin(log[..|log| - 1], who, windowMs, end); }
  }

  lemma {:induction false} HitsAreInWindow(log: seq<Request>, who: Of, windowMs: int, now: Time)
    requires forall k :: 0 <= k < |log| ==> log[k].at <= now
    ensures |InWindow(log, ScopeOf(who), now - windowMs)| == Hits(log, who, windowMs, now)
  {
    if log != [] { HitsAreInWindow(log[..|log| - 1], who, windowMs, now); }
  }

  // ----- The limits -----

  function HourlyOfSession(limits: Limits): int {
    match limits.actorHourly
    case Some(n) => n
    case None => limits.session
  }

  function HourlyOfAll(limits: Limits): int {
    match limits.globalHourly
    case Some(n) => n
    case None => limits.global
  }

  function DailyOfAll(limits: Limits): int {
    match limits.globalDaily
    case Some(n) => n
    case None => Max(limits.global, HourlyOfAll(limits))
  }

  /** There is room for one more request of a session and an identity: in the configured window
    * for the session, the identity and everyone, in the hour for the session and everyone, and
    * in the day for everyone. */
  predicate HasRoom(log: seq<Request>, limits: Limits, r: Request) {
    && Hits(log, OfSession(r.session), limits.windowMs, r.at) < limits.session
    && Hits(log, OfIdentity(r.identity), limits.windowMs, r.at) < limits.identity
    && Hits(log, OfAll, limits.windowMs, r.at) < limits.global
    && Hits(log, OfSession(r.session), 60 * 60_000, r.at) < HourlyOfSession(limits)
    && Hits(log, OfAll, 60 * 60_000, r.at) < HourlyOfAll(limits)
    && Hits(log, OfAll, 24 * 60 * 60_000, r.at) < DailyOfAll(limits)
  }

  /** The check of one limit. */
  lemma PassesExactlyWithRoom(log: seq<Request>, c: Check, who: Of, now: Time)
    requires c.scope == ScopeOf(who) && forall k :: 0 <= k < |log| ==> log[k].at <= now
    ensures Verdict(log, c, now).Accepted? <==> Hits(log, who, c.windowMs, now) < c.limit
  {
    HitsAreInWindow(log, who, c.windowMs, now);
  }

  lemma {:induction false} AllPass(log: seq<Request>, cs: seq<Check>, now: Time)
    ensures FirstRefusal(log, cs, now).Accepted? <==> forall i :: 0 <= i < |cs| ==> Verdict(log, cs[i], now).Accepted?
  {
    if cs != [] {
      AllPass(log, cs[1..], now);
      assert forall i :: 0 < i < |cs| ==> cs[i] == cs[1..][i - 1];
      assert forall i :: 0 <= i < |cs[1..]| ==> cs[1..][i] == cs[i + 1];
    }
  }

  /** The six checks are those of the limits. */
  lemma ChecksAreTheLimits(limits: Limits, r: Request)
    ensures var cs := Checks(limits, r.session, r.identity);
      && cs[0].scope == Session(r.session) && cs[0].windowMs == limits.windowMs && cs[0].limit == limits.session
      && cs[1].scope == Identity(r.identity) && cs[1].windowMs == limits.windowMs && cs[1].limit == limits.identity
      && cs[2].scope == Everyone && cs[2].windowMs == limits.windowMs && cs[2].limit == limits.global
      && cs[3].scope == Session(r.session) && cs[3].windowMs == 60 * 60_000 && cs[3].limit == HourlyOfSession(limits)
      && cs[4].scope == Everyone && cs[4].windowMs == 60 * 60_000 && cs[4].limit == HourlyOfAll(limits)
      && cs[5].scope == Everyone && cs[5].windowMs == 24 * 60 * 60_000 && cs[5].limit == DailyOfAll(limits)
      && (forall i :: 0 <= i < 6 ==> (cs[i].strict <==> i >= 3))
  {
  }

  /** A request that is no earlier than the log is accepted exactly when there is room for it. */
  lemma AcceptedExactlyWithRoom(log: seq<Request>, limits: Limits, r: Request)
    requires forall k :: 0 <= k < |log| ==> log[k].at <= r.at
    ensures Decide(log, limits, r).Accepted? <==> HasRoom(log, limits, r)
  {
    var cs := Checks(limits, r.session, r.identity);
    ChecksAreTheLimits(limits, r);
    AllPass(log, cs, r.at);
    PassesExactlyWithRoom(log, cs[0], OfSession(r.session), r.at);
    PassesExactlyWithRoom(log, cs[1], OfIdentity(r.identity), r.at);
    PassesExactlyWithRoom(log, cs[2], OfAll, r.at);
    PassesExactlyWithRoom(log, cs[3], OfSession(r.session), r.at);
    PassesExactlyWithRoom(log, cs[4], OfAll, r.at);
    PassesExactlyWithRoom(log, cs[5], OfAll, r.at);
  }

  // ----- Runs -----

  lemma {:induction false} RetainedHits(log: seq<Request>, cut: Time, who: Of, windowMs: int, end: Time)
    requires cut <= end - windowMs
    ensures Hits(Retained(log, cut), who, windowMs, end) == Hits(log, who, windowMs, end)
  {
    if log != [] {
      var front, r := log[..|log| - 1], log[|log| - 1];
      RetainedHits(front, cut, who, windowMs, end);
      var kept := Retained(front, cut);
      assert (kept + [r])[..|kept|] == kept;
    }
  }

  lemma {:induction false} RetainedAreOld(log: seq<Request>, cut: Time, now: Time)
    requires forall k :: 0 <= k < |log| ==> log[k].at <= now
    ensures forall k :: 0 <= k < |Retained(log, cut)| ==> Retained(log, cut)[k].at <= now
  {
    if log != [] { RetainedAreOld(log[..|log| - 1], cut, now); }
  }

  /** In a run with a window of at most a day, a request is accepted exactly when there is room
    * for it among all requests ever accepted, those that were pruned included. */
  lemma RunAcceptsExactly(limits: Limits, rs: seq<Request>, r: Request)
    requires limits.windowMs <= DAY && NonDecreasing(rs) && (rs != [] ==> rs[|rs| - 1].at <= r.at)
    ensures Decide(Stored(limits, rs), limits, r).Accepted? <==> HasRoom(History(limits, rs), limits, r)
  {
    var history := History(limits, rs);
    var cut := StoredIsCutHistory(limits, rs, r.at);
    assert forall k :: 0 <= k < |rs| ==> rs[k].at <= r.at;
    AcceptedBefore(limits, rs, r.at);
    RetainedAreOld(history, cut, r.at);
    AcceptedExactlyWithRoom(Stored(limits, rs), limits, r);
    RetainedHits(history, cut, OfSession(r.session), limits.windowMs, r.at);
    RetainedHits(history, cut, OfIdentity(r.identity), limits.windowMs, r.at);
    RetainedHits(history, cut, OfAll, limits.windowMs, r.at);
    RetainedHits(history, cut, OfSession(r.session), 60 * 60_000, r.at);
    RetainedHits(history, cut, OfAll, 60 * 60_000, r.at);
    RetainedHits(history, cut, OfAll, 24 * 60 * 60_000, r.at);
  }

  /** In a run no hour holds more accepted requests of a session, or of everyone, than their
    * hourly limits, and no day more than the daily one, whatever the configured window. */
  lemma HoursAndDaysHold(limits: Limits, rs: seq<Request>, session: nat, end: Time)
    requires NonDecreasing(rs)
    ensures Hits(History(limits, rs), OfSession(session), 60 * 60_000, end) <= Max(0, HourlyOfSession(limits))
    ensures Hits(History(limits, rs), OfAll, 60 * 60_000, end) <= Max(0, HourlyOfAll(limits))
    ensures Hits(History(limits, rs), OfAll, 24 * 60 * 60_000, end) <= Max(0, DailyOfAll(limits))
  {
    var history := History(limits, rs);
    ChecksAreTheLimits(limits, Request(session, 0, 0));
    WindowsNeverOverflow(limits, rs, session, 0, 3, end);
    WindowsNeverOverflow(limits, rs, session, 0, 4, end);
    WindowsNeverOverflow(limits, rs, session, 0, 5, end);
    HitsAreWithin(history, OfSession(session), 60 * 60_000, end);
    HitsAreWithin(history, OfAll, 60 * 60_000, end);
    HitsAreWithin(history, OfAll, 24 * 60 * 60_000, end);
  }

  /** In a run with a window of at most a day no window holds more accepted requests of a session
    * than the session's limit, of an identity than the identity's, of everyone than theirs. */
  lemma WindowsHold(limits: Limits, rs: seq<Request>, session: nat, identity: nat, end: Time)
    requires NonDecreasing(rs) && limits.windowMs <= DAY
    ensures Hits(History(limits, rs), OfSession(session), limits.windowMs, end) <= Max(0, limits.session)
    ensures Hits(History(limits, rs), OfIdentity(identity), limits.windowMs, end) <= Max(0, limits.identity)
    ensures Hits(History(limits, rs), OfAll, limits.windowMs, end) <= Max(0, limits.global)
  {
    var history := History(limits, rs);
    ChecksAreTheLimits(limits, Request(session, identity, 0));
    WindowsNeverOverflow(limits, rs, session, identity, 0, end);
    WindowsNeverOverflow(limits, rs, session, identity, 1, end);
    WindowsNeverOverflow(limits, rs, session, identity, 2, end);
    HitsAreWithin(history, OfSession(session), limits.windowMs, end);
    HitsAreWithin(history, OfIdentity(identity), limits.windowMs, end);
    HitsAreWithin(history, OfAll, limits.windowMs, end);
  }

  // ----- Who answers a refused request -----

  /** The time of the oldest request of someone in the window that ends now. */
  predicate IsOldest(log: seq<Request>, who: Of, windowMs: int, now: Time, at: Time) {
    && (exists k :: 0 <= k < |log| && Belongs(log[k], who) && log[k].at == at && now - windowMs < at)
    && (forall k :: 0 <= k < |log| && Belongs(log[k], who) && log[k].at > now - windowMs ==> at <= log[k].at)
  }

  lemma {:induction false} InWindowContains(log: seq<Request>, who: Of, since: Time)
    ensures forall x :: x in InWindow(log, ScopeOf(who), since) <==> x in log && Belongs(x, who) && x.at > since
  {
    if log != [] {
      InWindowContains(log[..|log| - 1], who, since);
      assert forall x :: x in log <==> x in log[..|log| - 1] || x == log[|log| - 1];
    }
  }

  lemma OldestIsEarliest(log: seq<Request>, who: Of, windowMs: int, now: Time, at: Time, rows: seq<Request>)
    requires IsOldest(log, who, windowMs, now, at) && rows == InWindow(log, ScopeOf(who), now - windowMs)
    ensures rows != [] && Earliest(rows) == at
  {
    InWindowContains(log, who, now - windowMs);
    var k :| 0 <= k < |log| && Belongs(log[k], who) && log[k].at == at && now - windowMs < at;
    assert log[k] in rows;
    var j :| 0 <= j < |rows| && rows[j] == log[k];
    EarliestIsLeast(rows);
    var i :| 0 <= i < |rows| && rows[i].at == Earliest(rows);
    assert rows[i] in rows;
    var l :| 0 <= l < |log| && log[l] == rows[i];
  }

  /** A full limit answers with the whole seconds, rounded up and at least one, until its oldest
    * request leaves its window. */
  lemma FullLimitAnswers(log: seq<Request>, c: Check, who: Of, now: Time, at: Time)
    requires c.scope == ScopeOf(who) && c.limit > 0 && IsOldest(log, who, c.windowMs, now, at)
    requires Hits(log, who, c.windowMs, now) >= c.limit && forall k :: 0 <= k < |log| ==> log[k].at <= now
    ensures var v := Verdict(log, c, now);
      v.Limited? && v.retryAfterSeconds == Max(1, CeilSeconds(at + c.windowMs - now))
  {
    HitsAreInWindow(log, who, c.windowMs, now);
    OldestIsEarliest(log, who, c.windowMs, now, at, InWindow(log, c.scope, now - c.windowMs));
    RefusedWithHint(log, c, now);
  }

  /** A refused request is answered by the first limit, in the order session, identity, everyone,
    * the session's hour, everyone's hour, everyone's day, that has no room. */
  lemma {:induction false} FirstFullLimitAnswers(log: seq<Request>, cs: seq<Check>, now: Time, i: nat)
    requires i < |cs| && Verdict(log, cs[i], now).Limited? && forall j :: 0 <= j < i ==> Verdict(log, cs[j], now).Accepted?
    ensures FirstRefusal(log, cs, now) == Verdict(log, cs[i], now)
  {
    if i > 0 {
      assert forall j :: 0 <= j < |cs[1..]| ==> cs[1..][j] == cs[j + 1];
      FirstFullLimitAnswers(log, cs[1..], now, i - 1);
    }
  }

  /** A limit that is not positive refuses at once: for the hour and the day with the whole
    * window as the answer, for the configured window with the usual one. */
  lemma NoLimitAnswers(log: seq<Request>, c: Check, now: Time)
    requires c.limit <= 0
    ensures Verdict(log, c, now).Limited?
    ensures c.strict && c.windowMs >= 1000 && c.windowMs % 1000 == 0 ==> 1000 * Verdict(log, c, now).retryAfterSeconds == c.windowMs
  {
  }
}
