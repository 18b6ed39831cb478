/** What an entry of the basket tells about the scans, rechecks and verdicts of its identity. */
module FollowUpHistory {
  import opened Common
  import opened FollowUp

  // ----- The history of an identity, read from the events alone -----

  predicate Tracks(e: Event, id: Identity) {
    e.Scanned? && id in e.scan && (e.scan[id].newEmerging || e.scan[id].observationOnly)
  }

  /** When the identity was last seen: by a scan that tracks it, later than those before. */
  function SeenAt(events: seq<Event>, id: Identity): Option<Time> {
    if events == [] then None
    else
      var seen, e := SeenAt(events[..|events| - 1], id), events[|events| - 1];
      if Tracks(e, id) && (seen.None? || e.at > seen.value) then Some(e.at) else seen
  }

  function FirstSeenAt(events: seq<Event>, id: Identity): Option<Time> {
    if events == [] then None
    else
      var first, e := FirstSeenAt(events[..|events| - 1], id), events[|events| - 1];
      if first.None? && Tracks(e, id) then Some(e.at) else first
  }

  /** The last event brings news of the identity: a scan that sees it later than before, or a
    * recheck of it after it was first seen. */
  predicate BringsNews(events: seq<Event>, id: Identity)
    requires events != []
  {
    var seen, e := SeenAt(events[..|events| - 1], id), events[|events| - 1];
    (Tracks(e, id) && (seen.None? || e.at > seen.value)) || (e.WasRechecked? && e.id == id && seen.Some?)
  }

  datatype News = News(o: Observation, run: nat)

  function NewsIn(e: Event, id: Identity): News
    requires Tracks(e, id) || e.WasRechecked?
  {
    if e.WasRechecked? then News(e.r.o, e.r.run) else News(e.scan[id], e.run)
  }

  function LatestNews(events: seq<Event>, id: Identity): Option<News> {
    if events == [] then None
    else if BringsNews(events, id) then Some(NewsIn(events[|events| - 1], id))
    else LatestNews(events[..|events| - 1], id)
  }

  /** The last name, or symbol, that any news gave. */
  function LatestName(events: seq<Event>, id: Identity): Option<string> {
    if events == [] then None
    else if BringsNews(events, id) && NewsIn(events[|events| - 1], id).o.name.Some? then NewsIn(events[|events| - 1], id).o.name
    else LatestName(events[..|events| - 1], id)
  }

  function LatestSymbol(events: seq<Event>, id: Identity): Option<string> {
    if events == [] then None
    else if BringsNews(events, id) && NewsIn(events[|events| - 1], id).o.symbol.Some? then NewsIn(events[|events| - 1], id).o.symbol
    else LatestSymbol(events[..|events| - 1], id)
  }

  function CheckedAt(events: seq<Event>, id: Identity): Option<Time> {
    if events == [] then None
    else
      var front, e := events[..|events| - 1], events[|events| - 1];
      if e.WasRechecked? && e.id == id && SeenAt(front, id).Some? then Some(e.r.at) else CheckedAt(front, id)
  }

  /** The owner's last verdict on the identity, unless it has been forgotten since. */
  function LatestVerdict(events: seq<Event>, id: Identity): Option<Verification> {
    if events == [] then None
    else
      var e := events[|events| - 1];
      if e.OwnerVerified? && e.id == id then Some(e.v)
      else if e.VerdictForgotten? && e.id == id then None
      else LatestVerdict(events[..|events| - 1], id)
  }

  /** What a verdict says about security; without one a verification is still required. */
  predicate Says(v: Option<Verification>, security: Security) {
    && (security.level.Checked? <==> v.Some? && v.value.verdict.Verified?)
    && (security.level.PartiallyChecked? <==> v.Some? && v.value.verdict.NeedsMoreData?)
    && (security.level.CriticalRisk? <==> v.Some? && (v.value.verdict.Critical? || v.value.verdict.Reject?))
    && (security.level.ManualVerificationRequired? <==> v.None?)
    && security.missing == (if v.None? then 1 else if v.value.verdict.Verified? then 0 else v.value.missing)
  }

  /** The security of the identity is what the last of these said: its first scan by the verdict
    * then remembered, a recheck by its own finding or none, the owner by a verdict. */
  predicate IsSecurity(events: seq<Event>, id: Identity, security: Security) {
    events != [] &&
    var front, e := events[..|events| - 1], events[|events| - 1];
    if SeenAt(front, id).None? then Tracks(e, id) && Says(LatestVerdict(front, id), security)
    else if e.WasRechecked? && e.id == id then if e.r.security.Some? then security == e.r.security.value else Says(None, security)
    else if e.OwnerVerified? && e.id == id then Says(Some(e.v), security)
    else IsSecurity(front, id, security)
  }

  // ----- Entries tell it -----

  /** An entry, if there is one, tells the history of its identity. */
  predicate Tells(s: Store, events: seq<Event>, id: Identity) {
    && (if id in s.manual then LatestVerdict(events, id) == Some(s.manual[id]) else LatestVerdict(events, id).None?)
    && (id in s.entries <==> SeenAt(events, id).Some?)
    && (id in s.entries ==> TellsOf(s.entries[id], events, id))
  }

  predicate TellsOf(entry: Entry, events: seq<Event>, id: Identity) {
    && SeenAt(events, id) == Some(entry.lastSeen) && FirstSeenAt(events, id) == Some(entry.firstSeen)
    && CheckedAt(events, id) == entry.lastChecked
    && LatestName(events, id) == entry.name && LatestSymbol(events, id) == entry.symbol
    && LatestNews(events, id).Some?
    && LatestNews(events, id).value.o.market == entry.market
    && LatestNews(events, id).value.o.passed == entry.passed && LatestNews(events, id).value.run == entry.run
    && IsSecurity(events, id, entry.security)
  }

  lemma VerdictSays(v: Option<Verification>)
    ensures Says(v, ManualSecurity(v))
  {
  }

  lemma {:induction false} SeenMeansFirstSeen(events: seq<Event>, id: Identity)
    ensures SeenAt(events, id).Some? <==> FirstSeenAt(events, id).Some?
    ensures SeenAt(events, id).None? ==>
      LatestNews(events, id).None? && LatestName(events, id).None? && LatestSymbol(events, id).None? && CheckedAt(events, id).None?
  {
    if events != [] { SeenMeansFirstSeen(events[..|events| - 1], id); }
  }

  lemma ScanTells(s: Store, events: seq<Event>, id: Identity)
    requires events != [] && events[|events| - 1].Scanned? && Tells(s, events[..|events| - 1], id)
    ensures Tells(StoreStep(s, events[|events| - 1]), events, id)
  {
    var front := events[..|events| - 1];
    SeenMeansFirstSeen(front, id);
    VerdictSays(LatestVerdict(front, id));
  }

  lemma RecheckTells(s: Store, events: seq<Event>, id: Identity)
    requires events != [] && events[|events| - 1].WasRechecked? && Tells(s, events[..|events| - 1], id)
    ensures Tells(StoreStep(s, events[|events| - 1]), events, id)
  {
    VerdictSays(None);
  }

  lemma OtherEventTells(s: Store, events: seq<Event>, id: Identity)
    requires events != [] && !events[|events| - 1].Scanned? && !events[|events| - 1].WasRechecked?
    requires Tells(s, events[..|events| - 1], id)
    ensures Tells(StoreStep(s, events[|events| - 1]), events, id)
  {
    var e := events[|events| - 1];
    if e.OwnerVerified? { VerdictSays(Some(e.v)); }
  }

  /** In every run each entry tells the history of its identity: when it was first and last seen
    * and last checked, its last known name and symbol, the market, the filter result and the
    * run of its latest news, its security, and the owner's verdict. */
  lemma {:induction false} EntriesTellHistory(events: seq<Event>, id: Identity)
    ensures Tells(StoreAfter(events), events, id)
  {
    if events != [] {
      var front, e := events[..|events| - 1], events[|events| - 1];
      EntriesTellHistory(front, id);
      if e.Scanned? { ScanTells(StoreAfter(front), events, id); }
      else if e.WasRechecked? { RecheckTells(StoreAfter(front), events, id); }
      else { OtherEventTells(StoreAfter(front), events, id); }
    }
  }

  // ----- The dates of candidates and archived entries -----

  /** The moment of an event that decides about entries. */
  function EventTime(e: Event): Time {
    match e
    case Scanned(_, at, _, _) => at
    case WasRechecked(_, r, _) => r.at
    case MembershipSynced(_, at) => at
    case _ => 0
  }

  /** A candidate has the date on which it became one: an entry without a date that becomes a
    * candidate gets the event's, one with a date keeps it as long as it stays a candidate, and
    * beyond, until a scan finds it is none. Archived entries likewise, but that any other status
    * decided by an event takes their date away. */
  lemma StatusDates(s: Store, e: Event, id: Identity)
    requires StoreOk(s) && id in s.entries
    ensures var before, after := s.entries[id], StoreStep(s, e).entries[id];
      && (after.status.Candidate? && before.candidateSince.None? ==> after.candidateSince == Some(EventTime(e)))
      && (after.status.Candidate? && before.candidateSince.Some? ==> after.candidateSince == before.candidateSince)
      && (!after.status.Candidate? ==> after.candidateSince == before.candidateSince || (e.Scanned? && after.candidateSince.None?))
      && (!after.status.Candidate? && e.Scanned? && after != before ==> after.candidateSince.None?)
      && (after.status.Archived? && before.archivedAt.None? ==> after.archivedAt == Some(EventTime(e)))
      && (after.status.Archived? && before.archivedAt.Some? ==> after.archivedAt == before.archivedAt)
      && (!after.status.Archived? && after.status != before.status ==> after.archivedAt.None?)
  {
    var before := s.entries[id];
    assert EntryOk(before);
  }
}
