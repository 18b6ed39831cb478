/** What each mutation of the universe does to the entry it names, and when it is refused. */
module UniverseEdits {
  import opened Common
  import opened Universe
  import opened UniverseHistory

  /** A change of a text was made: the text set, none after clearing, the old one when kept. */
  predicate Made(c: Change, before: Option<string>, after: Option<string>) {
    && (c.SetTo? ==> after == Some(c.text)) && (c.Clear? ==> after.None?) && (c.Keep? ==> after == before)
  }

  /** The entry before and after a mutation of it. */
  predicate IsEdit(m: Mutation, before: UniverseEntry, after: UniverseEntry, now: Time) {
    && after.identity == before.identity && after.addedAt == before.addedAt && after.addedBy == before.addedBy && after.updatedAt == now
    && (m.Update? ==>
          && Made(m.displayNameTo, before.displayName, after.displayName)
          && Made(m.symbolHintTo, before.symbolHint, after.symbolHint)
          && Made(m.ownerNoteTo, before.ownerNote, after.ownerNote)
          && after.enabled == before.enabled)
    && (m.Enable? || m.Disable? ==>
          && after.displayName == before.displayName && after.symbolHint == before.symbolHint && after.ownerNote == before.ownerNote
          && after.enabled == m.Enable? && before.enabled != m.Enable?)
  }

  /** An added entry has what was given, is enabled unless told otherwise, and names its adder. */
  predicate IsAddition(m: Mutation, e: UniverseEntry, now: Time, actor: string)
    requires m.Add?
  {
    && e.identity == m.identity && e.displayName == m.displayName && e.symbolHint == m.symbolHint && e.ownerNote == m.ownerNote
    && (m.enabled.None? ==> e.enabled) && (m.enabled.Some? ==> e.enabled == m.enabled.value)
    && e.addedAt == now && e.updatedAt == now && e.addedBy == actor
  }

  lemma EditedAsTold(e: UniverseEntry, m: Mutation, now: Time)
    requires !m.Add? && !m.Remove? && ChangedFields(e, Edited(e, m, now)) != {}
    ensures IsEdit(m, e, Edited(e, m, now), now)
  {
  }

  lemma AddedAsGiven(entries: seq<UniverseEntry>, m: Mutation, now: Time, actor: string)
    requires m.Add? && Planned(entries, m, now, actor).Ok?
    ensures var planned := Planned(entries, m, now, actor).value.entries;
      planned == entries + [planned[|entries|]] && IsAddition(m, planned[|entries|], now, actor)
  {
  }

  /** The contents before and after a mutation: the entry it names is edited, added or removed as
    * told, and every other entry is as it was. */
  ghost predicate Edits(a: map<Identity, UniverseEntry>, b: map<Identity, UniverseEntry>, m: Mutation, now: Time, actor: string) {
    && (forall k :: k != m.identity ==> (k in a <==> k in b) && (k in a ==> a[k] == b[k]))
    && (m.Add? ==> m.identity !in a && m.identity in b && IsAddition(m, b[m.identity], now, actor))
    && (m.Remove? ==> m.identity in a && m.identity !in b)
    && (!m.Add? && !m.Remove? ==> m.identity in a && m.identity in b && IsEdit(m, a[m.identity], b[m.identity], now))
  }

  lemma PlannedEdits(entries: seq<UniverseEntry>, m: Mutation, now: Time, actor: string)
    requires Planned(entries, m, now, actor).Ok? && DistinctIdentities(entries)
    ensures Edits(Contents(entries), Contents(Planned(entries, m, now, actor).value.entries), m, now, actor)
  {
    PlanKeepsOthers(entries, m, now, actor);
    if m.Add? {
      AddedAsGiven(entries, m, now, actor);
    } else if !m.Remove? {
      EditedAsTold(entries[IndexOf(entries, m.identity)], m, now);
    }
  }

  /** An applied mutation makes exactly its edit. */
  lemma MutationEdits(s: UniverseStore, m: Mutation, now: Time, actor: string)
    requires Mutated(s, m, now, actor).Ok? && DistinctIdentities(s.current.entries)
    ensures Edits(Contents(s.current.entries), Contents(Mutated(s, m, now, actor).value.current.entries), m, now, actor)
  {
    PlannedEdits(s.current.entries, m, now, actor);
  }

  /** The text fields are named exactly when they have changed. */
  predicate NamesChangedTexts(changed: set<Field>, before: UniverseEntry, after: UniverseEntry) {
    && (DisplayName in changed <==> before.displayName != after.displayName)
    && (SymbolHint in changed <==> before.symbolHint != after.symbolHint)
    && (OwnerNote in changed <==> before.ownerNote != after.ownerNote)
    && changed <= {DisplayName, SymbolHint, OwnerNote} && changed != {}
  }

  lemma PlanNamesChanges(entries: seq<UniverseEntry>, m: Mutation, now: Time, actor: string)
    requires Planned(entries, m, now, actor).Ok? && DistinctIdentities(entries)
    ensures var plan := Planned(entries, m, now, actor).value;
      var a, b := Contents(entries), Contents(plan.entries);
      && (m.Add? || m.Remove? ==> plan.changed == {WholeEntry}) && (m.Enable? || m.Disable? ==> plan.changed == {Enabled})
      && (m.Update? ==> m.identity in a && m.identity in b && NamesChangedTexts(plan.changed, a[m.identity], b[m.identity]))
  {
    if m.Update? {
      PlanKeepsOthers(entries, m, now, actor);
      UpdateNamesTexts(entries[IndexOf(entries, m.identity)], m, now);
    } else {
      OtherPlansName(entries, m, now, actor);
    }
  }

  lemma UpdateNamesTexts(e: UniverseEntry, m: Mutation, now: Time)
    requires m.Update? && ChangedFields(e, Edited(e, m, now)) != {}
    ensures NamesChangedTexts(ChangedFields(e, Edited(e, m, now)), e, Edited(e, m, now))
  {
  }

  lemma OtherPlansName(entries: seq<UniverseEntry>, m: Mutation, now: Time, actor: string)
    requires !m.Update? && Planned(entries, m, now, actor).Ok?
    ensures Planned(entries, m, now, actor).value.changed == if m.Add? || m.Remove? then {WholeEntry} else {Enabled}
  {
  }

  /** The audit entry of an applied mutation says who made which change when, and names a field
    * exactly when the entry has changed in it. */
  lemma AuditSaysWhatChanged(s: UniverseStore, m: Mutation, now: Time, actor: string)
    requires Mutated(s, m, now, actor).Ok? && DistinctIdentities(s.current.entries)
    ensures var s' := Mutated(s, m, now, actor).value;
      var audit, a, b := s'.audit[0], Contents(s.current.entries), Contents(s'.current.entries);
      && audit.identity == m.identity && audit.actor == actor && audit.changedAt == now && s'.current.generatedAt == now
      && (audit.operation.AddOp? <==> m.Add?) && (audit.operation.RemoveOp? <==> m.Remove?)
      && (audit.operation.EnableOp? <==> m.Enable?) && (audit.operation.DisableOp? <==> m.Disable?)
      && (m.Add? || m.Remove? ==> audit.changed == {WholeEntry}) && (m.Enable? || m.Disable? ==> audit.changed == {Enabled})
      && (m.Update? ==> m.identity in a && m.identity in b && NamesChangedTexts(audit.changed, a[m.identity], b[m.identity]))
  {
    NewestAudit(s, m, now, actor);
    PlanNamesChanges(s.current.entries, m, now, actor);
  }

  lemma NewestAudit(s: UniverseStore, m: Mutation, now: Time, actor: string)
    requires Mutated(s, m, now, actor).Ok?
    ensures var s', plan := Mutated(s, m, now, actor).value, Planned(s.current.entries, m, now, actor).value;
      && s'.audit[0].changed == plan.changed && s'.current.entries == plan.entries && s'.current.generatedAt == now
      && s'.audit[0].identity == m.identity && s'.audit[0].actor == actor && s'.audit[0].changedAt == now
      && s'.audit[0].operation == OperationOf(m)
  {
  }

  // ----- Refusals -----

  predicate ValidTexts(name: Option<string>, symbol: Option<string>, note: Option<string>) {
    ValidOptional(name, 120) && ValidOptional(symbol, 120) && ValidOptional(note, 500)
  }

  function TextSetBy(c: Change): Option<string> {
    if c.SetTo? then Some(c.text) else None
  }

  /** An update would leave some text other than it is. */
  predicate ChangesSomething(e: UniverseEntry, m: Mutation)
    requires m.Update?
  {
    || !Made(m.displayNameTo, e.displayName, e.displayName) || !Made(m.symbolHintTo, e.symbolHint, e.symbolHint)
    || !Made(m.ownerNoteTo, e.ownerNote, e.ownerNote)
  }

  /** When the entries themselves allow a mutation. */
  predicate MayPlan(entries: seq<UniverseEntry>, m: Mutation) {
    var a := Contents(entries);
    match m
    case Add(id, _, name, symbol, note) => id !in a && |entries| < 100 && ValidTexts(name, symbol, note)
    case Remove(id) => id in a
    case Enable(id) => id in a && !a[id].enabled
    case Disable(id) => id in a && a[id].enabled
    case Update(id, name, symbol, note) =>
      id in a && ValidTexts(TextSetBy(name), TextSetBy(symbol), TextSetBy(note)) && ChangesSomething(a[id], m)
  }

  lemma {:induction false} HeldExactly(entries: seq<UniverseEntry>, id: Identity)
    requires DistinctIdentities(entries)
    ensures var i := IndexOf(entries, id); (id in Contents(entries) <==> i >= 0) && (i >= 0 ==> Contents(entries)[id] == entries[i])
  {
    if entries != [] {
      var front, last := entries[..|entries| - 1], entries[|entries| - 1];
      HeldExactly(front, id);
      var i := IndexOf(entries, id);
      if i >= 0 {
        IndexIsFirst(entries, id, i);
        if i < |front| { IndexIsFirst(front, id, i); }
      }
    }
  }

  /** A mutation is planned exactly when the entries allow it. */
  lemma PlannedExactly(entries: seq<UniverseEntry>, m: Mutation, now: Time, actor: string)
    requires DistinctIdentities(entries)
    ensures Planned(entries, m, now, actor).Ok? <==> MayPlan(entries, m)
  {
    HeldExactly(entries, m.identity);
  }

  /** The times of every entry that stays as it is are in order, and an edit is not dated before
    * its entry was added. */
  predicate TimesAllow(a: map<Identity, UniverseEntry>, m: Mutation, now: Time) {
    && (forall k :: k in a && k != m.identity ==> a[k].addedAt <= a[k].updatedAt)
    && (m.identity in a && !m.Add? && !m.Remove? ==> a[m.identity].addedAt <= now)
  }

  predicate InOrderOfTime(a: map<Identity, UniverseEntry>) {
    forall k :: k in a ==> a[k].addedAt <= a[k].updatedAt
  }

  lemma TimesOfContents(entries: seq<UniverseEntry>)
    requires DistinctIdentities(entries)
    ensures TimesInOrder(entries) <==> InOrderOfTime(Contents(entries))
  {
    var a := Contents(entries);
    ContentsKeepIdentity(entries);
    forall i | 0 <= i < |entries| ensures entries[i].identity in a && a[entries[i].identity] == entries[i] {
      IndexIsFirst(entries, entries[i].identity, i);
      HeldExactly(entries, entries[i].identity);
    }
    if TimesInOrder(entries) {
      forall k | k in a ensures a[k].addedAt <= a[k].updatedAt {
        var i :| 0 <= i < |entries| && entries[i] == a[k];
      }
    }
  }

  lemma TimesOfEdit(a: map<Identity, UniverseEntry>, b: map<Identity, UniverseEntry>, m: Mutation, now: Time, actor: string)
    requires Edits(a, b, m, now, actor)
    ensures InOrderOfTime(b) <==> TimesAllow(a, m, now)
  {
  }

  lemma TimesExactly(entries: seq<UniverseEntry>, m: Mutation, now: Time, actor: string)
    requires DistinctIdentities(entries) && Planned(entries, m, now, actor).Ok?
    ensures TimesInOrder(Planned(entries, m, now, actor).value.entries) <==> TimesAllow(Contents(entries), m, now)
  {
    var planned := Planned(entries, m, now, actor).value.entries;
    PlanKeepsOthers(entries, m, now, actor);
    PlannedEdits(entries, m, now, actor);
    TimesOfContents(planned);
    TimesOfEdit(Contents(entries), Contents(planned), m, now, actor);
  }

  /** It is applied exactly when, besides, a version is left and the times are in order. */
  lemma AppliedExactly(s: UniverseStore, m: Mutation, now: Time, actor: string)
    requires DistinctIdentities(s.current.entries)
    ensures Mutated(s, m, now, actor).Ok?
       <==> MayPlan(s.current.entries, m) && s.current.version < 999_999 && TimesAllow(Contents(s.current.entries), m, now)
  {
    PlannedExactly(s.current.entries, m, now, actor);
    if Planned(s.current.entries, m, now, actor).Ok? { TimesExactly(s.current.entries, m, now, actor); }
  }

  /** Why the entries do not allow a mutation. */
  predicate IsReason(e: MutationError, entries: seq<UniverseEntry>, m: Mutation) {
    var a := Contents(entries);
    match e
    case DuplicateIdentity => m.Add? && m.identity in a
    case TooManyEntries => m.Add? && m.identity !in a && |entries| >= 100
    case EntryNotFound => !m.Add? && m.identity !in a
    case NoChanges =>
      m.identity in a && ((m.Enable? && a[m.identity].enabled) || (m.Disable? && !a[m.identity].enabled)
                          || (m.Update? && !ChangesSomething(a[m.identity], m)))
    case DisplayNameInvalid =>
      (m.Add? && !ValidOptional(m.displayName, 120)) || (m.Update? && !ValidOptional(TextSetBy(m.displayNameTo), 120))
    case SymbolHintInvalid =>
      (m.Add? && !ValidOptional(m.symbolHint, 120)) || (m.Update? && !ValidOptional(TextSetBy(m.symbolHintTo), 120))
    case OwnerNoteInvalid =>
      (m.Add? && !ValidOptional(m.ownerNote, 500)) || (m.Update? && !ValidOptional(TextSetBy(m.ownerNoteTo), 500))
    case _ => false
  }

  lemma PlansHaveTheirReason(entries: seq<UniverseEntry>, m: Mutation, now: Time, actor: string)
    requires DistinctIdentities(entries) && Planned(entries, m, now, actor).Err?
    ensures IsReason(Planned(entries, m, now, actor).error, entries, m)
    ensures NamesFirstText(Planned(entries, m, now, actor).error, m)
    ensures m.Add? && m.identity in Contents(entries) ==> Planned(entries, m, now, actor).error.DuplicateIdentity?
    ensures m.Add? && m.identity !in Contents(entries) && |entries| >= 100 ==> Planned(entries, m, now, actor).error.TooManyEntries?
  {
    HeldExactly(entries, m.identity);
    if m.Add? { AdditionReason(entries, m, now, actor); }
    else if m.Update? { UpdateReason(entries, m, now, actor); }
    else { FlagReason(entries, m, now, actor); }
  }

  /** Of invalid texts the display name is named before the symbol, and the symbol before the note. */
  predicate NamesFirstText(e: MutationError, m: Mutation) {
    && (m.Add? && (e.SymbolHintInvalid? || e.OwnerNoteInvalid?) ==> ValidOptional(m.displayName, 120))
    && (m.Add? && e.OwnerNoteInvalid? ==> ValidOptional(m.symbolHint, 120))
    && (m.Update? && (e.SymbolHintInvalid? || e.OwnerNoteInvalid?) ==> ValidOptional(TextSetBy(m.displayNameTo), 120))
    && (m.Update? && e.OwnerNoteInvalid? ==> ValidOptional(TextSetBy(m.symbolHintTo), 120))
  }

  lemma AdditionReason(entries: seq<UniverseEntry>, m: Mutation, now: Time, actor: string)
    requires m.Add? && Planned(entries, m, now, actor).Err? && (m.identity in Contents(entries) <==> IndexOf(entries, m.identity) >= 0)
    ensures NamesFirstText(Planned(entries, m, now, actor).error, m)
    ensures IsReason(Planned(entries, m, now, actor).error, entries, m)
    ensures m.identity in Contents(entries) ==> Planned(entries, m, now, actor).error.DuplicateIdentity?
    ensures m.identity !in Contents(entries) && |entries| >= 100 ==> Planned(entries, m, now, actor).error.TooManyEntries?
  {
  }

  lemma NoChangeOfTexts(e: UniverseEntry, m: Mutation, now: Time)
    requires m.Update? && ChangedFields(e, Edited(e, m, now)) == {}
    ensures !ChangesSomething(e, m)
  {
    var edited := Edited(e, m, now);
    assert DisplayName !in ChangedFields(e, edited) && SymbolHint !in ChangedFields(e, edited) && OwnerNote !in ChangedFields(e, edited);
  }

  lemma UpdateReason(entries: seq<UniverseEntry>, m: Mutation, now: Time, actor: string)
    requires m.Update? && Planned(entries, m, now, actor).Err?
    ensures NamesFirstText(Planned(entries, m, now, actor).error, m)
    requires var i, a := IndexOf(entries, m.identity), Contents(entries); (m.identity in a <==> i >= 0) && (i >= 0 ==> a[m.identity] == entries[i])
    ensures IsReason(Planned(entries, m, now, actor).error, entries, m)
  {
    var i, e := IndexOf(entries, m.identity), Planned(entries, m, now, actor).error;
    if i >= 0 && e.NoChanges? { NoChangeOfTexts(entries[i], m, now); }
  }

  lemma FlagReason(entries: seq<UniverseEntry>, m: Mutation, now: Time, actor: string)
    requires !m.Add? && !m.Update? && Planned(entries, m, now, actor).Err?
    requires var i, a := IndexOf(entries, m.identity), Contents(entries); (m.identity in a <==> i >= 0) && (i >= 0 ==> a[m.identity] == entries[i])
    ensures IsReason(Planned(entries, m, now, actor).error, entries, m)
  {
    var i := IndexOf(entries, m.identity);
    if i >= 0 && m.Enable? != m.Disable? {
      assert Enabled !in ChangedFields(entries[i], Edited(entries[i], m, now)) ==> entries[i].enabled == m.Enable?;
    }
  }

  /** The reason given for a refusal is one that holds: of the entries, or, when they allow the
    * mutation, that no version is left, or that the times are out of order. */
  lemma RefusalsHaveTheirReason(s: UniverseStore, m: Mutation, now: Time, actor: string)
    requires DistinctIdentities(s.current.entries) && Mutated(s, m, now, actor).Err?
    ensures var entries, e := s.current.entries, Mutated(s, m, now, actor).error;
      if !MayPlan(entries, m) then IsReason(e, entries, m)
      else if s.current.version >= 999_999 then e.VersionExhausted?
      else e.UpdatedAtInvalid? && !TimesAllow(Contents(entries), m, now)
  {
    PlannedExactly(s.current.entries, m, now, actor);
    AppliedExactly(s, m, now, actor);
    if Planned(s.current.entries, m, now, actor).Err? { PlansHaveTheirReason(s.current.entries, m, now, actor); }
  }

  // ----- Texts and checksums -----

  function TrimStart(text: string): string {
    if text != [] && IsSpace(text[0]) then TrimStart(text[1..]) else text
  }

  function TrimEnd(text: string): string {
    if text != [] && IsSpace(text[|text| - 1]) then TrimEnd(text[..|text| - 1]) else text
  }

  lemma {:induction false} TrimsShorten(text: string)
    ensures |TrimStart(text)| <= |text| && |TrimEnd(text)| <= |text|
    decreases |text|
  {
    if text != [] {
      TrimsShorten(text[1..]);
      TrimsShorten(text[..|text| - 1]);
    }
  }

  /** A text is valid exactly when it is not empty, not too long, and trimming leaves it as it is. */
  lemma ValidTextIsTrimmed(text: string, max: nat)
    ensures ValidText(text, max) <==> text != [] && |text| <= max && TrimStart(text) == text && TrimEnd(text) == text
  {
    if text != [] {
      TrimsShorten(text[1..]);
      TrimsShorten(text[..|text| - 1]);
    }
  }

  /** The checksum sees every change of the entries, and nothing else of a snapshot. */
  lemma ChecksumSeesEntries(u: Snapshot, v: Snapshot)
    ensures Checksum(u) == Checksum(v) <==> u.entries == v.entries
  {
  }
}
