/** The audit log of the basket, cut at its limit, and the owner's verdicts that are read from
  * it.
  */
module FollowUpAudit {
  import opened Common
  import opened FollowUp

  /** An entry of the audit log: a verification by the owner, or anything else. */
  datatype LogEntry = VerifiedEntry(identity: Identity, v: Verification) | OtherEntry

  predicate Verifies(e: LogEntry, identity: Identity) {
    e.VerifiedEntry? && e.identity == identity
  }

  const AUDIT_LIMIT: nat := 200

  function Take(log: seq<LogEntry>, n: nat): seq<LogEntry> {
    if |log| <= n then log else log[..n]
  }

  /** The log after operations that each put entries at its head, newest first; never cut. */
  function FullLog(batches: seq<seq<LogEntry>>): seq<LogEntry> {
    if batches == [] then [] else batches[|batches| - 1] + FullLog(batches[..|batches| - 1])
  }

  /** The log as it is stored: cut after each operation. */
  function StoredLog(batches: seq<seq<LogEntry>>): seq<LogEntry> {
    if batches == [] then [] else Take(batches[|batches| - 1] + StoredLog(batches[..|batches| - 1]), AUDIT_LIMIT)
  }

  /** The position of the latest verification of an identity, or the length of the log: so many
    * entries have been logged since. */
  function LoggedSince(log: seq<LogEntry>, identity: Identity): (n: nat)
    ensures n <= |log|
    ensures n < |log| ==> Verifies(log[n], identity)
    ensures forall k :: 0 <= k < n ==> !Verifies(log[k], identity)
  {
    if log == [] || Verifies(log[0], identity) then 0 else 1 + LoggedSince(log[1..], identity)
  }

  /** The latest verification of an identity in a log. */
  function LatestVerification(log: seq<LogEntry>, identity: Identity): Option<Verification> {
    var n := LoggedSince(log, identity);
    if n < |log| then Some(log[n].v) else None
  }

  /** The loop over the stored log finds it. */
  method FindLatestManualVerification(log: seq<LogEntry>, identity: Identity) returns (found: Option<Verification>)
    ensures found == LatestVerification(log, identity)
  {
    for k := 0 to |log|
      invariant forall i :: 0 <= i < k ==> !Verifies(log[i], identity)
    {
      if Verifies(log[k], identity) {
        FirstMatch(log, identity, k);
        return Some(log[k].v);
      }
    }
    found := None;
  }

  lemma FirstMatch(log: seq<LogEntry>, identity: Identity, k: nat)
    requires k < |log| && Verifies(log[k], identity)
    requires forall i :: 0 <= i < k ==> !Verifies(log[i], identity)
    ensures LoggedSince(log, identity) == k
  {
  }

  /** Cutting after each operation is cutting once. */
  lemma {:induction false} StoredIsCut(batches: seq<seq<LogEntry>>)
    ensures StoredLog(batches) == Take(FullLog(batches), 200)
  {
    if batches != [] {
      var front, last := batches[..|batches| - 1], batches[|batches| - 1];
      StoredIsCut(front);
      assert Take(last + Take(FullLog(front), AUDIT_LIMIT), AUDIT_LIMIT) == Take(last + FullLog(front), AUDIT_LIMIT);
    }
  }

  /** The stored log answers as the full one exactly when the identity was never verified or
    * fewer than two hundred entries have been logged since; otherwise the verdict is forgotten. */
  lemma VerdictSurvivesExactly(batches: seq<seq<LogEntry>>, identity: Identity)
    ensures var full := FullLog(batches);
      && (LatestVerification(StoredLog(batches), identity) == LatestVerification(full, identity)
          <==> LatestVerification(full, identity).None? || LoggedSince(full, identity) < 200)
      && (LatestVerification(StoredLog(batches), identity) != LatestVerification(full, identity)
          ==> LatestVerification(StoredLog(batches), identity).None?)
  {
    var full, stored := FullLog(batches), StoredLog(batches);
    StoredIsCut(batches);
    assert forall k :: 0 <= k < |stored| ==> stored[k] == full[k];
    var n := LoggedSince(full, identity);
    if n < |stored| { FirstMatch(stored, identity, n); }
  }

  /** What an operation logs: a verification its verdict, any other operation entries of its own. */
  predicate LogsOf(e: Event, batch: seq<LogEntry>) {
    if e.OwnerVerified? then batch == [VerifiedEntry(e.id, e.v)]
    else forall k :: 0 <= k < |batch| ==> batch[k].OtherEntry?
  }

  /** While none is forgotten, the verdicts that a basket remembers are those of the full log. */
  lemma {:induction false} RememberedIsLatest(events: seq<Event>, batches: seq<seq<LogEntry>>, identity: Identity)
    requires |batches| == |events| && forall k :: 0 <= k < |events| ==> LogsOf(events[k], batches[k]) && !events[k].VerdictForgotten?
    ensures var manual := StoreAfter(events).manual;
      LatestVerification(FullLog(batches), identity) == if identity in manual then Some(manual[identity]) else None
  {
    if events != [] {
      var front, rest := events[..|events| - 1], batches[..|batches| - 1];
      var e, batch := events[|events| - 1], batches[|batches| - 1];
      assert forall k :: 0 <= k < |front| ==> front[k] == events[k] && rest[k] == batches[k];
      RememberedIsLatest(front, rest, identity);
      assert LogsOf(e, batch);
      if e.OwnerVerified? && e.id == identity {
        FirstMatch(FullLog(batches), identity, 0);
      } else {
        SkipsTheHead(batch, FullLog(rest), identity);
      }
    }
  }

  lemma SkipsTheHead(head: seq<LogEntry>, log: seq<LogEntry>, identity: Identity)
    requires forall k :: 0 <= k < |head| ==> !Verifies(head[k], identity)
    ensures LatestVerification(head + log, identity) == LatestVerification(log, identity)
  {
    var n := LoggedSince(log, identity);
    assert forall i :: 0 <= i < |head + log| ==> (head + log)[i] == if i < |head| then head[i] else log[i - |head|];
    if n < |log| { FirstMatch(head + log, identity, |head| + n); }
  }
}
