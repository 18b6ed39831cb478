/** The request log of the analysis queue and the sliding-window limits it enforces. */
module RateLimits {
  import opened Common

  /** An accepted request: hashed session, hashed identity, and when it was accepted. */
  datatype Request = Request(session: nat, identity: nat, at: Time)

  datatype Limits = Limits(
    windowMs: int, session: int, identity: int, global: int,
    actorHourly: Option<int>, globalHourly: Option<int>, globalDaily: Option<int>)

  datatype Scope = Session(session: nat) | Identity(identity: nat) | Everyone

  /** At most `limit` requests of a scope per window; `strict` limits refuse outright when not positive. */
  datatype Check = Check(scope: Scope, windowMs: int, limit: int, strict: bool)

  datatype Decision = Accepted | Limited(retryAfterSeconds: int)

  predicate Matches(scope: Scope, r: Request) {
    match scope
    case Session(s) => r.session == s
    case Identity(i) => r.identity == i
    case Everyone => true
  }

  /** The requests of a scope accepted after `since`, oldest first. */
  function InWindow(log: seq<Request>, scope: Scope, since: Time): (rows: seq<Request>)
    ensures |rows| <= |log|
    ensures forall i :: 0 <= i < |rows| ==> Matches(scope, rows[i]) && rows[i].at > since
  {
    if log == [] then []
    else
      var rows, r := InWindow(log[..|log| - 1], scope, since), log[|log| - 1];
      if Matches(scope, r) && r.at > since then rows + [r] else rows
  }

  function Earliest(rows: seq<Request>): (at: Time)
    requires rows != []
  {
    if |rows| == 1 then rows[0].at
    else
      var rest := Earliest(rows[..|rows| - 1]);
      Min(rest, rows[|rows| - 1].at)
  }

  lemma {:induction false} EarliestIsLeast(rows: seq<Request>)
    requires rows != []
    ensures exists i :: 0 <= i < |rows| && rows[i].at == Earliest(rows)
    ensures forall i :: 0 <= i < |rows| ==> Earliest(rows) <= rows[i].at
  {
    if |rows| > 1 {
      var front := rows[..|rows| - 1];
      EarliestIsLeast(front);
      var i :| 0 <= i < |front| && front[i].at == Earliest(front);
      assert rows[i].at == Earliest(front);
      assert rows[|rows| - 1].at <= Earliest(front) ==> rows[|rows| - 1].at == Earliest(rows);
      assert forall k :: 0 <= k < |front| ==> rows[k] == front[k];
    } else {
      assert rows[0].at == Earliest(rows);
    }
  }

  function CeilSeconds(ms: int): (s: int)
    ensures 1000 * (s - 1) < ms <= 1000 * s
  {
    -(-ms / 1000)
  }

  function RetryAfter(first: Time, windowMs: int, now: Time): (s: int) {
    Max(1, CeilSeconds(first + windowMs - now))
  }

  /** Whether a check refuses a request at `now`, and after how many seconds to retry. */
  function Verdict(log: seq<Request>, c: Check, now: Time): Decision {
    if c.strict && c.limit <= 0 then Limited(Max(1, CeilSeconds(c.windowMs)))
    else
      var rows := InWindow(log, c.scope, now - c.windowMs);
      if |rows| < c.limit then Accepted
      else Limited(RetryAfter(if rows == [] then now else Earliest(rows), c.windowMs, now))
  }

  /** The checks a request meets, in the order they are made. */
  function Checks(limits: Limits, session: nat, identity: nat): (cs: seq<Check>)
    ensures |cs| == 6
  {
    var actorHourly := if limits.actorHourly.Some? then limits.actorHourly.value else limits.session;
    var globalHourly := if limits.globalHourly.Some? then limits.globalHourly.value else limits.global;
    var globalDaily := if limits.globalDaily.Some? then limits.globalDaily.value else Max(limits.global, globalHourly);
    [ Check(Session(session), limits.windowMs, limits.session, false),
      Check(Identity(identity), limits.windowMs, limits.identity, false),
      Check(Everyone, limits.windowMs, limits.global, false),
      Check(Session(session), HOUR, actorHourly, true),
      Check(Everyone, HOUR, globalHourly, true),
      Check(Everyone, DAY, globalDaily, true) ]
  }

  /** The first refusal among the checks, if any. */
  function FirstRefusal(log: seq<Request>, cs: seq<Check>, now: Time): Decision {
    if cs == [] then Accepted
    else
      var d := Verdict(log, cs[0], now);
      if d.Limited? then d else FirstRefusal(log, cs[1..], now)
  }

  function Decide(log: seq<Request>, limits: Limits, r: Request): Decision {
    FirstRefusal(log, Checks(limits, r.session, r.identity), r.at)
  }

  /** The log without the requests accepted at `cut` or before. */
  function Retained(log: seq<Request>, cut: Time): (kept: seq<Request>)
  {
    if log == [] then []
    else
      var kept, r := Retained(log[..|log| - 1], cut), log[|log| - 1];
      if r.at > cut then kept + [r] else kept
  }

  /** The stored log after a request: pruned at one day when the request is accepted. */
  function Next(log: seq<Request>, limits: Limits, r: Request): seq<Request> {
    if Decide(log, limits, r).Accepted? then Retained(log, r.at - DAY) + [r] else log
  }

  /** The stored request log. */
  class RequestLog {
    var log: seq<Request>

    constructor ()
      ensures log == []
    {
      log := [];
    }

    /** Decides a request; an accepted one prunes the log and is recorded. */
    method Admit(limits: Limits, r: Request) returns (decision: Decision)
      modifies this
      ensures decision == Decide(old(log), limits, r)
      ensures log == Next(old(log), limits, r)
    {
      var cs := Checks(limits, r.session, r.identity);
      assert cs[0..] == cs;
      for i := 0 to |cs|
        invariant FirstRefusal(log, cs[i..], r.at) == Decide(log, limits, r)
      {
        assert cs[i..][1..] == cs[i + 1..];
        decision := Verdict(log, cs[i], r.at);
        if decision.Limited? { return; }
      }
      decision := Accepted;
      var kept: seq<Request> := [];
      for i := 0 to |log|
        invariant kept == Retained(log[..i], r.at - DAY)
      {
        assert log[..i + 1][..i] == log[..i];
        if log[i].at > r.at - DAY { kept := kept + [log[i]]; }
      }
      assert log[..|log|] == log;
      log := kept + [r];
    }
  }

  // ----- Runs -----

  predicate NonDecreasing(rs: seq<Request>) {
    forall i, j :: 0 <= i < j < |rs| ==> rs[i].at <= rs[j].at
  }

  /** The stored log after a sequence of requests. */
  function Stored(limits: Limits, rs: seq<Request>): seq<Request> {
    if rs == [] then [] else Next(Stored(limits, rs[..|rs| - 1]), limits, rs[|rs| - 1])
  }

  /** Every request the store accepted. */
  function History(limits: Limits, rs: seq<Request>): seq<Request> {
    if rs == [] then []
    else
      var front, r := rs[..|rs| - 1], rs[|rs| - 1];
      if Decide(Stored(limits, front), limits, r).Accepted? then History(limits, front) + [r] else History(limits, front)
  }

  /** The log of a store that never prunes. */
  function Unpruned(limits: Limits, rs: seq<Request>): seq<Request> {
    if rs == [] then []
    else
      var log, r := Unpruned(limits, rs[..|rs| - 1]), rs[|rs| - 1];
      if Decide(log, limits, r).Accepted? then log + [r] else log
  }

  /** The pruning store and the store that never prunes answer every request alike. */
  ghost predicate SameAnswers(limits: Limits, rs: seq<Request>) {
    forall k :: 0 <= k < |rs| ==>
      Decide(Stored(limits, rs[..k]), limits, rs[k]) == Decide(Unpruned(limits, rs[..k]), limits, rs[k])
  }

  lemma {:induction false} RetainedInWindow(log: seq<Request>, cut: Time, scope: Scope, since: Time)
    requires cut <= since
    ensures InWindow(Retained(log, cut), scope, since) == InWindow(log, scope, since)
  {
    if log != [] {
      var front, r := log[..|log| - 1], log[|log| - 1];
      RetainedInWindow(front, cut, scope, since);
      var kept := Retained(front, cut);
      assert (kept + [r])[..|kept|] == kept;
    }
  }

  lemma {:induction false} RetainedTwice(log: seq<Request>, cut: Time, later: Time)
    requires cut <= later
    ensures Retained(Retained(log, cut), later) == Retained(log, later)
  {
    if log != [] {
      var front, r := log[..|log| - 1], log[|log| - 1];
      RetainedTwice(front, cut, later);
      var kept := Retained(front, cut);
      assert (kept + [r])[..|kept|] == kept;
    }
  }

  lemma {:induction false} RetainedDecides(log: seq<Request>, cut: Time, cs: seq<Check>, now: Time)
    requires forall i :: 0 <= i < |cs| ==> cut <= now - cs[i].windowMs
    ensures FirstRefusal(Retained(log, cut), cs, now) == FirstRefusal(log, cs, now)
  {
    if cs != [] {
      RetainedInWindow(log, cut, cs[0].scope, now - cs[0].windowMs);
      RetainedDecides(log, cut, cs[1..], now);
    }
  }

  /** The stored log is the unpruned one, cut at least a day back. */
  lemma {:induction false} StoredIsRetained(limits: Limits, rs: seq<Request>) returns (cut: Time)
    requires limits.windowMs <= DAY && NonDecreasing(rs)
    ensures Stored(limits, rs) == Retained(Unpruned(limits, rs), cut)
    ensures rs != [] ==> cut <= rs[|rs| - 1].at - DAY
    ensures History(limits, rs) == Unpruned(limits, rs)
  {
    if rs == [] {
      cut := 0;
    } else {
      var front, r := rs[..|rs| - 1], rs[|rs| - 1];
      cut := StoredIsRetained(limits, front);
      cut := OneMoreRetained(limits, Stored(limits, front), Unpruned(limits, front), r, if front == [] then r.at - DAY else cut);
    }
  }

  /** One request more, on the pruned log and on the full one. */
  lemma OneMoreRetained(limits: Limits, log: seq<Request>, full: seq<Request>, r: Request, cut: Time) returns (next: Time)
    requires limits.windowMs <= DAY && log == Retained(full, cut) && cut <= r.at - DAY
    ensures Decide(log, limits, r) == Decide(full, limits, r)
    ensures Next(log, limits, r) == Retained(if Decide(full, limits, r).Accepted? then full + [r] else full, next)
    ensures next <= r.at - DAY
  {
    OneMoreDecides(limits, full, r, cut);
    RetainedAndMore(full, r, cut);
    next := if Decide(full, limits, r).Accepted? then r.at - DAY else cut;
  }

  lemma OneMoreDecides(limits: Limits, full: seq<Request>, r: Request, cut: Time)
    requires limits.windowMs <= DAY && cut <= r.at - DAY
    ensures Decide(Retained(full, cut), limits, r) == Decide(full, limits, r)
  {
    RetainedDecides(full, cut, Checks(limits, r.session, r.identity), r.at);
  }

  lemma RetainedAndMore(full: seq<Request>, r: Request, cut: Time)
    requires cut <= r.at - DAY
    ensures Retained(Retained(full, cut), r.at - DAY) + [r] == Retained(full + [r], r.at - DAY)
  {
    RetainedTwice(full, cut, r.at - DAY);
    assert (full + [r])[..|full|] == full;
  }

  lemma StoredIsRetainedAt(limits: Limits, rs: seq<Request>, now: Time) returns (cut: Time)
    requires limits.windowMs <= DAY && NonDecreasing(rs)
    requires rs != [] ==> rs[|rs| - 1].at <= now
    ensures cut <= now - DAY
    ensures Stored(limits, rs) == Retained(Unpruned(limits, rs), cut)
    ensures History(limits, rs) == Unpruned(limits, rs)
  {
    cut := StoredIsRetained(limits, rs);
    if rs == [] { cut := now - DAY; }
  }

  lemma StoredAnswersAlike(limits: Limits, rs: seq<Request>, r: Request)
    requires limits.windowMs <= DAY && NonDecreasing(rs)
    requires rs != [] ==> rs[|rs| - 1].at <= r.at
    ensures Decide(Stored(limits, rs), limits, r) == Decide(Unpruned(limits, rs), limits, r)
  {
    var cut := StoredIsRetainedAt(limits, rs, r.at);
    OneMoreDecides(limits, Unpruned(limits, rs), r, cut);
  }

  // ----- Pruning at one day is invisible exactly for windows of at most one day -----

  function UniformLimits(windowMs: int): Limits {
    Limits(windowMs, 1, 9, 9, Some(9), Some(9), Some(9))
  }

  /** With a window over one day, a session's second request is let through once another
    * session's request has pruned the first one away. */
  lemma LongWindowForgets(windowMs: int)
    requires windowMs > DAY
    ensures !SameAnswers(UniformLimits(windowMs), [Request(1, 1, 0), Request(2, 2, DAY), Request(1, 3, DAY)])
  {
    var limits := UniformLimits(windowMs);
    var a, b, c := Request(1, 1, 0), Request(2, 2, DAY), Request(1, 3, DAY);
    var rs := [a, b, c];
    assert rs[..2] == [a, b];
    FirstRequestPrunedAway(limits, a, b);
    OtherSessionAccepts(limits, b, c);
    assert Decide(Stored(limits, rs[..2]), limits, rs[2]).Accepted?;
    SecondRequestRefused(limits, [a, b], c);
    assert Decide(Unpruned(limits, rs[..2]), limits, rs[2]).Limited?;
  }

  lemma FirstRequestPrunedAway(limits: Limits, a: Request, b: Request)
    requires limits == UniformLimits(limits.windowMs)
    requires a.session != b.session && a.at <= b.at - DAY
    ensures Stored(limits, [a, b]) == [b] && Unpruned(limits, [a, b]) == [a, b]
  {
    assert [a, b][..1] == [a] && [a][..0] == [];
    EmptyLogAccepts(limits, a);
    assert Stored(limits, []) == [] && Unpruned(limits, []) == [] && Retained([], a.at - DAY) == [];
    assert Stored(limits, [a]) == [a] && Unpruned(limits, [a]) == [a];
    OtherSessionAccepts(limits, a, b);
    assert Retained([a], b.at - DAY) == [];
  }

  lemma SecondRequestRefused(limits: Limits, log: seq<Request>, r: Request)
    requires limits == UniformLimits(limits.windowMs)
    requires |log| == 2 && log[0].session == r.session && log[0].at > r.at - limits.windowMs
    ensures Decide(log, limits, r).Limited?
  {
    var since := r.at - limits.windowMs;
    assert log[..1][..0] == [] && log[..1] == [log[0]];
    assert InWindow(log[..1], Session(r.session), since) == [log[0]];
    assert |InWindow(log, Session(r.session), since)| >= 1;
  }

  lemma ShortLogAccepts(log: seq<Request>, cs: seq<Check>, now: Time)
    requires |log| <= 1
    requires forall i :: 0 <= i < |cs| ==>
      cs[i].limit > 0 && (cs[i].limit > 1 || InWindow(log, cs[i].scope, now - cs[i].windowMs) == [])
    ensures FirstRefusal(log, cs, now) == Accepted
  {
  }

  lemma EmptyLogAccepts(limits: Limits, r: Request)
    requires limits == UniformLimits(limits.windowMs)
    ensures Decide([], limits, r) == Accepted
  {
    ShortLogAccepts([], Checks(limits, r.session, r.identity), r.at);
  }

  lemma OtherSessionAccepts(limits: Limits, a: Request, r: Request)
    requires limits == UniformLimits(limits.windowMs) && a.session != r.session
    ensures Decide([a], limits, r) == Accepted
  {
    assert InWindow([a], Session(r.session), r.at - limits.windowMs) == [];
    ShortLogAccepts([a], Checks(limits, r.session, r.identity), r.at);
  }

  lemma ShortWindowAnswersAlike(limits: Limits, rs: seq<Request>)
    requires limits.windowMs <= DAY && NonDecreasing(rs)
    ensures SameAnswers(limits, rs)
  {
    forall k | 0 <= k < |rs|
      ensures Decide(Stored(limits, rs[..k]), limits, rs[k]) == Decide(Unpruned(limits, rs[..k]), limits, rs[k])
    {
      StoredAnswersAlike(limits, rs[..k], rs[k]);
    }
  }

  lemma LongWindowIsSeen(windowMs: int)
    requires windowMs > DAY
    ensures exists limits: Limits, rs :: limits.windowMs == windowMs && NonDecreasing(rs) && !SameAnswers(limits, rs)
  {
    LongWindowForgets(windowMs);
    var limits, rs := UniformLimits(windowMs), [Request(1, 1, 0), Request(2, 2, DAY), Request(1, 3, DAY)];
    assert limits.windowMs == windowMs && NonDecreasing(rs) && !SameAnswers(limits, rs);
  }

  /** Pruning never changes an answer, whatever the limits and requests, exactly when the
    * window is at most the 24 hours the log is kept for. */
  lemma PruningIsInvisible(windowMs: int)
    ensures (forall limits: Limits, rs :: limits.windowMs == windowMs && NonDecreasing(rs) ==> SameAnswers(limits, rs))
       <==> windowMs <= DAY
  {
    if windowMs <= DAY {
      forall limits: Limits, rs | limits.windowMs == windowMs && NonDecreasing(rs) ensures SameAnswers(limits, rs) {
        ShortWindowAnswersAlike(limits, rs);
      }
    } else {
      LongWindowIsSeen(windowMs);
    }
  }

  // ----- No window ever holds more accepted requests than its limit -----

  /** The accepted requests of a scope in the window that ends at `end`. */
  function Within(log: seq<Request>, scope: Scope, windowMs: int, end: Time): seq<Request> {
    if log == [] then []
    else
      var rows, r := Within(log[..|log| - 1], scope, windowMs, end), log[|log| - 1];
      if Matches(scope, r) && end - windowMs < r.at <= end then rows + [r] else rows
  }

  lemma {:induction false} WithinIsInWindow(log: seq<Request>, scope: Scope, windowMs: int, end: Time, since: Time)
    requires since <= end - windowMs
    ensures |Within(log, scope, windowMs, end)| <= |InWindow(log, scope, since)|
  {
    if log != [] {
      WithinIsInWindow(log[..|log| - 1], scope, windowMs, end, since);
    }
  }

  lemma {:induction false} AcceptedPassesChecks(log: seq<Request>, cs: seq<Check>, now: Time, i: nat)
    requires i < |cs| && FirstRefusal(log, cs, now).Accepted?
    ensures |InWindow(log, cs[i].scope, now - cs[i].windowMs)| < cs[i].limit
  {
    if i > 0 { AcceptedPassesChecks(log, cs[1..], now, i - 1); }
  }

  /** Over any run with fixed limits and a non-decreasing clock, every interval of a check's
    * length holds at most its limit of accepted requests: per session, per identity and
    * overall, for the configured window, the hour and the day. */
  lemma {:induction false} WindowsNeverOverflow(limits: Limits, rs: seq<Request>, session: nat, identity: nat, i: nat, end: Time)
    requires NonDecreasing(rs) && i < 6 && (i < 3 ==> limits.windowMs <= DAY)
    ensures var c := Checks(limits, session, identity)[i];
            |Within(History(limits, rs), c.scope, c.windowMs, end)| <= Max(0, c.limit)
  {
    if rs != [] {
      var front, r := rs[..|rs| - 1], rs[|rs| - 1];
      WindowsNeverOverflow(limits, front, session, identity, i, end);
      var c := Checks(limits, session, identity)[i];
      if Decide(Stored(limits, front), limits, r).Accepted? && Matches(c.scope, r) {
        OwnChecks(limits, r, session, identity, i);
        ChecksFitTheLog(limits, r, i);
        var cut := StoredIsCutHistory(limits, front, r.at);
        AcceptedBefore(limits, front, r.at);
        RoomForAccepted(Stored(limits, front), History(limits, front), cut, Checks(limits, r.session, r.identity), i, r.at, end);
      }
      WithinExtended(History(limits, front), r, c, end);
    }
  }

  /** The stored log is what was accepted, cut at least a day back, whatever the window. */
  lemma {:induction false} StoredIsCutHistory(limits: Limits, rs: seq<Request>, now: Time) returns (cut: Time)
    requires NonDecreasing(rs) && (rs != [] ==> rs[|rs| - 1].at <= now)
    ensures cut <= now - DAY && Stored(limits, rs) == Retained(History(limits, rs), cut)
  {
    if rs == [] {
      cut := now - DAY;
    } else {
      var front, r := rs[..|rs| - 1], rs[|rs| - 1];
      cut := StoredIsCutHistory(limits, front, r.at);
      RetainedAndMore(History(limits, front), r, cut);
      if Decide(Stored(limits, front), limits, r).Accepted? { cut := r.at - DAY; }
    }
  }

  lemma WithinExtended(history: seq<Request>, r: Request, c: Check, end: Time)
    ensures var before, after := Within(history, c.scope, c.windowMs, end), Within(history + [r], c.scope, c.windowMs, end);
            |after| == if Matches(c.scope, r) && end - c.windowMs < r.at <= end then |before| + 1 else |before|
  {
    assert (history + [r])[..|history|] == history;
  }

  lemma OwnChecks(limits: Limits, r: Request, session: nat, identity: nat, i: nat)
    requires i < 6 && Matches(Checks(limits, session, identity)[i].scope, r)
    ensures Checks(limits, r.session, r.identity)[i] == Checks(limits, session, identity)[i]
  {
  }

  lemma ChecksFitTheLog(limits: Limits, r: Request, i: nat)
    requires i < 6 && (i < 3 ==> limits.windowMs <= DAY)
    ensures Checks(limits, r.session, r.identity)[i].windowMs <= DAY
  {
  }

  /** When a request is accepted by a retained log, each of its windows had room in the history. */
  lemma RoomForAccepted(log: seq<Request>, history: seq<Request>, cut: Time, cs: seq<Check>, i: nat, now: Time, end: Time)
    requires log == Retained(history, cut) && i < |cs| && cut <= now - cs[i].windowMs
    requires forall k :: 0 <= k < |history| ==> history[k].at <= now
    requires FirstRefusal(log, cs, now).Accepted?
    ensures now <= end ==> |Within(history, cs[i].scope, cs[i].windowMs, end)| < cs[i].limit
  {
    AcceptedPassesChecks(log, cs, now, i);
    RetainedInWindow(history, cut, cs[i].scope, now - cs[i].windowMs);
    if now <= end { WithinEarlier(history, cs[i].scope, cs[i].windowMs, end, now); }
  }

  lemma {:induction false} AcceptedBefore(limits: Limits, rs: seq<Request>, now: Time)
    requires forall k :: 0 <= k < |rs| ==> rs[k].at <= now
    ensures forall k :: 0 <= k < |History(limits, rs)| ==> History(limits, rs)[k].at <= now
  {
    if rs != [] { AcceptedBefore(limits, rs[..|rs| - 1], now); }
  }

  lemma {:induction false} WithinEarlier(log: seq<Request>, scope: Scope, windowMs: int, end: Time, now: Time)
    requires now <= end && forall k :: 0 <= k < |log| ==> log[k].at <= now
    ensures |Within(log, scope, windowMs, end)| <= |InWindow(log, scope, now - windowMs)|
  {
    if log != [] { WithinEarlier(log[..|log| - 1], scope, windowMs, end, now); }
  }

  // ----- The retry hint -----

  /** How many of the rows are no younger than a moment. */
  function Leaving(rows: seq<Request>, cutoff: Time): (n: nat)
    ensures n <= |rows|
  {
    if rows == [] then 0 else Leaving(rows[..|rows| - 1], cutoff) + if rows[|rows| - 1].at <= cutoff then 1 else 0
  }

  /** A full window refuses until its earliest request leaves it: the hint, a whole number of
    * seconds and at least one, is never too long. */
  lemma RetryHintIsNeverTooLong(log: seq<Request>, c: Check, now: Time, later: Time)
    requires c.limit > 0 && now <= later && |InWindow(log, c.scope, now - c.windowMs)| >= c.limit
    ensures var v := Verdict(log, c, now);
      v.Limited? && v.retryAfterSeconds >= 1
      && (v.retryAfterSeconds > 1 && later <= now + 1000 * (v.retryAfterSeconds - 1) ==> Verdict(log, c, later).Limited?)
  {
    var first := Earliest(InWindow(log, c.scope, now - c.windowMs));
    RefusedWithHint(log, c, now);
    HintIsCeiling(first + c.windowMs - now, RetryAfter(first, c.windowMs, now), later - now);
    PassesWhenSomeLeave(log, c, now, later);
  }

  /** It is long enough exactly when more requests leave by then than the window holds too
    * many, and always when the window holds no more than its limit. */
  lemma RetryHintIsExact(log: seq<Request>, c: Check, now: Time, later: Time)
    requires c.limit > 0 && |InWindow(log, c.scope, now - c.windowMs)| >= c.limit
    requires later >= now + 1000 * RetryAfter(Earliest(InWindow(log, c.scope, now - c.windowMs)), c.windowMs, now)
    ensures var rows := InWindow(log, c.scope, now - c.windowMs);
      && Verdict(log, c, now) == Limited(RetryAfter(Earliest(rows), c.windowMs, now))
      && (Verdict(log, c, later).Accepted? <==> Leaving(rows, later - c.windowMs) > |rows| - c.limit)
      && (|rows| == c.limit ==> Verdict(log, c, later).Accepted?)
  {
    var first := Earliest(InWindow(log, c.scope, now - c.windowMs));
    RefusedWithHint(log, c, now);
    HintIsCeiling(first + c.windowMs - now, RetryAfter(first, c.windowMs, now), later - now);
    PassesWhenSomeLeave(log, c, now, later);
  }

  lemma PassesWhenSomeLeave(log: seq<Request>, c: Check, now: Time, later: Time)
    requires c.limit > 0 && now <= later && |InWindow(log, c.scope, now - c.windowMs)| >= c.limit
    ensures var rows := InWindow(log, c.scope, now - c.windowMs);
      && (Verdict(log, c, later).Accepted? <==> Leaving(rows, later - c.windowMs) > |rows| - c.limit)
      && (Leaving(rows, later - c.windowMs) > 0 <==> Earliest(rows) + c.windowMs <= later)
  {
    PassesExactly(log, c, now, later);
    SomeLeave(InWindow(log, c.scope, now - c.windowMs), later - c.windowMs);
  }

  lemma RefusedWithHint(log: seq<Request>, c: Check, now: Time)
    requires c.limit > 0 && |InWindow(log, c.scope, now - c.windowMs)| >= c.limit
    ensures Verdict(log, c, now) == Limited(RetryAfter(Earliest(InWindow(log, c.scope, now - c.windowMs)), c.windowMs, now))
  {
  }

  lemma HintIsCeiling(ms: int, hint: int, wait: int)
    requires hint == Max(1, CeilSeconds(ms))
    ensures hint >= 1 && (hint > 1 && wait <= 1000 * (hint - 1) ==> wait < ms) && (wait >= 1000 * hint ==> wait >= ms)
  {
  }

  lemma PassesExactly(log: seq<Request>, c: Check, now: Time, later: Time)
    requires c.limit > 0 && now <= later
    ensures var rows := InWindow(log, c.scope, now - c.windowMs);
      Verdict(log, c, later).Accepted? <==> Leaving(rows, later - c.windowMs) > |rows| - c.limit
  {
    WindowSplits(log, c.scope, now - c.windowMs, later - c.windowMs);
    AcceptsBelowLimit(log, c, later);
  }

  lemma AcceptsBelowLimit(log: seq<Request>, c: Check, now: Time)
    requires c.limit > 0
    ensures Verdict(log, c, now).Accepted? <==> |InWindow(log, c.scope, now - c.windowMs)| < c.limit
  {
  }

  lemma SomeLeave(rows: seq<Request>, cutoff: Time)
    requires rows != []
    ensures Leaving(rows, cutoff) > 0 <==> Earliest(rows) <= cutoff
  {
    if cutoff < Earliest(rows) { NoneLeavesBefore(rows, cutoff); } else { EarliestLeaves(rows, cutoff); }
  }

  lemma {:induction false} NoneLeavesBefore(rows: seq<Request>, cutoff: Time)
    requires rows != [] && cutoff < Earliest(rows)
    ensures Leaving(rows, cutoff) == 0
  {
    if |rows| > 1 { NoneLeavesBefore(rows[..|rows| - 1], cutoff); }
  }

  lemma {:induction false} EarliestLeaves(rows: seq<Request>, cutoff: Time)
    requires rows != [] && Earliest(rows) <= cutoff
    ensures Leaving(rows, cutoff) > 0
  {
    if |rows| > 1 && Earliest(rows[..|rows| - 1]) <= cutoff { EarliestLeaves(rows[..|rows| - 1], cutoff); }
  }

  /** The window later is the window now without those that leave. */
  lemma {:induction false} WindowSplits(log: seq<Request>, scope: Scope, since: Time, later: Time)
    requires since <= later
    ensures |InWindow(log, scope, later)| == |InWindow(log, scope, since)| - Leaving(InWindow(log, scope, since), later)
  {
    if log != [] {
      var front, r := log[..|log| - 1], log[|log| - 1];
      WindowSplits(front, scope, since, later);
      var rows := InWindow(front, scope, since);
      assert (rows + [r])[..|rows|] == rows;
    }
  }

  /** Two requests under a limit lowered to one: the hint is too short. */
  lemma LoweredLimitHintsTooEarly(log: seq<Request>, now: Time)
    requires |log| == 2 && log[0].session == log[1].session
    requires log[0].at < log[1].at - 1000 && log[1].at <= now < log[0].at + 10_000
    ensures var c := Check(Session(log[0].session), 10_000, 1, false);
      Verdict(log, c, now).Limited? && Verdict(log, c, now + 1000 * Verdict(log, c, now).retryAfterSeconds).Limited?
  {
    var c := Check(Session(log[0].session), 10_000, 1, false);
    BothInWindow(log, c.scope, now - c.windowMs);
    var hint := RetryAfter(Earliest(log), c.windowMs, now);
    RefusedWithHint(log, c, now);
    SecondStays(log, now + 1000 * hint - c.windowMs);
    PassesExactly(log, c, now, now + 1000 * hint);
  }

  lemma BothInWindow(log: seq<Request>, scope: Scope, since: Time)
    requires |log| == 2 && Matches(scope, log[0]) && Matches(scope, log[1]) && since < log[0].at <= log[1].at
    ensures InWindow(log, scope, since) == log && Earliest(log) == log[0].at
  {
    var front := log[..1];
    assert front[..0] == [] && log == front + [log[1]];
    assert InWindow(front, scope, since) == front && Earliest(front) == log[0].at;
  }

  lemma SecondStays(log: seq<Request>, cutoff: Time)
    requires |log| == 2 && cutoff < log[1].at
    ensures Leaving(log, cutoff) <= 1
  {
    assert Leaving(log[..1], cutoff) <= 1;
  }
}
