/** The versioned universe of established addresses: copy-on-write mutations with a bounded
  * history, an audit log and a diff that must tell the same story.
  */
module Universe {
  import opened Common

  datatype UniverseEntry = UniverseEntry(
    identity: Identity, enabled: bool, displayName: Option<string>, symbolHint: Option<string>, ownerNote: Option<string>,
    addedAt: Time, updatedAt: Time, addedBy: string)

  datatype Snapshot = Snapshot(version: nat, generatedAt: Time, entries: seq<UniverseEntry>)

  /** The digest of a snapshot's entries, taken to be injective. */
  datatype Digest = Sha256(entries: seq<UniverseEntry>)

  function Checksum(u: Snapshot): Digest { Sha256(u.entries) }

  datatype Field = WholeEntry | Enabled | DisplayName | SymbolHint | OwnerNote | AddedAt | AddedBy

  datatype Operation = AddOp | UpdateOp | EnableOp | DisableOp | RemoveOp

  datatype Audit = Audit(
    operation: Operation, identity: Identity, changed: set<Field>, fromVersion: nat, toVersion: nat, changedAt: Time, actor: string)

  datatype UniverseStore = UniverseStore(current: Snapshot, history: seq<Snapshot>, audit: seq<Audit>)

  /** What an update does to an optional text. */
  datatype Change = Keep | Clear | SetTo(text: string)

  datatype Mutation =
    | Add(identity: Identity, enabled: Option<bool>, displayName: Option<string>, symbolHint: Option<string>, ownerNote: Option<string>)
    | Update(identity: Identity, displayNameTo: Change, symbolHintTo: Change, ownerNoteTo: Change)
    | Enable(identity: Identity)
    | Disable(identity: Identity)
    | Remove(identity: Identity)

  datatype MutationError =
    | DuplicateIdentity | TooManyEntries | EntryNotFound | NoChanges
    | DisplayNameInvalid | SymbolHintInvalid | OwnerNoteInvalid
    | VersionExhausted | UpdatedAtInvalid | Stale

  const MAX_ENTRIES: nat := 100
  const HISTORY_LIMIT: nat := 20
  const AUDIT_LIMIT: nat := 200
  const LAST_VERSION: nat := 999_999

  // ----- Texts -----

  predicate IsSpace(c: char) {
    var u := c as int;
    0x09 <= u <= 0x0D || u == 0x20 || u == 0xA0 || u == 0x1680 || 0x2000 <= u <= 0x200A
    || u == 0x2028 || u == 0x2029 || u == 0x202F || u == 0x205F || u == 0x3000 || u == 0xFEFF
  }

  predicate ValidText(text: string, max: nat) {
    0 < |text| <= max && !IsSpace(text[0]) && !IsSpace(text[|text| - 1])
  }

  predicate ValidOptional(text: Option<string>, max: nat) {
    text.Some? ==> ValidText(text.value, max)
  }

  predicate ValidChange(c: Change, max: nat) {
    c.SetTo? ==> ValidText(c.text, max)
  }

  function Changed(text: Option<string>, c: Change): Option<string> {
    match c
    case Keep => text
    case Clear => None
    case SetTo(t) => Some(t)
  }

  // ----- Contents and differences -----

  /** The entries by identity. */
  function Contents(entries: seq<UniverseEntry>): map<Identity, UniverseEntry> {
    if entries == [] then map[]
    else
      var e := entries[|entries| - 1];
      Contents(entries[..|entries| - 1])[e.identity := e]
  }

  /** The fields in which two entries of one identity differ; the update time does not count. */
  function ChangedFields(before: UniverseEntry, after: UniverseEntry): set<Field> {
    (if before.enabled != after.enabled then {Enabled} else {})
    + (if before.displayName != after.displayName then {DisplayName} else {})
    + (if before.symbolHint != after.symbolHint then {SymbolHint} else {})
    + (if before.ownerNote != after.ownerNote then {OwnerNote} else {})
    + (if before.addedAt != after.addedAt then {AddedAt} else {})
    + (if before.addedBy != after.addedBy then {AddedBy} else {})
  }

  datatype EntryChange = EntryChange(before: UniverseEntry, after: UniverseEntry, fields: set<Field>)

  datatype Difference = Difference(
    added: map<Identity, UniverseEntry>, removed: map<Identity, UniverseEntry>, changed: map<Identity, EntryChange>)

  function Diff(from: Snapshot, to: Snapshot): Difference {
    var a, b := Contents(from.entries), Contents(to.entries);
    Difference(
      map id | id in b && id !in a :: b[id],
      map id | id in a && id !in b :: a[id],
      map id | id in b && id in a && ChangedFields(a[id], b[id]) != {} :: EntryChange(a[id], b[id], ChangedFields(a[id], b[id])))
  }

  /** The contents that a difference leads to. */
  function Patch(contents: map<Identity, UniverseEntry>, d: Difference): map<Identity, UniverseEntry> {
    map id | id in contents.Keys + d.added.Keys && id !in d.removed ::
      if id in d.added then d.added[id] else if id in d.changed then d.changed[id].after else contents[id]
  }

  predicate SameButUpdateTime(a: map<Identity, UniverseEntry>, b: map<Identity, UniverseEntry>) {
    a.Keys == b.Keys && forall id :: id in a ==> a[id].(updatedAt := b[id].updatedAt) == b[id]
  }

  lemma {:induction false} ContentsKeepIdentity(entries: seq<UniverseEntry>)
    ensures forall id :: id in Contents(entries) ==> Contents(entries)[id].identity == id && Contents(entries)[id] in entries
    ensures forall e :: e in entries ==> e.identity in Contents(entries)
  {
    if entries != [] {
      var front, last := entries[..|entries| - 1], entries[|entries| - 1];
      ContentsKeepIdentity(front);
      assert forall e :: e in entries <==> e in front || e == last;
    }
  }

  /** Patching a snapshot with its difference to another gives the other, up to update times. */
  lemma PatchLeadsToTarget(from: Snapshot, to: Snapshot)
    ensures SameButUpdateTime(Patch(Contents(from.entries), Diff(from, to)), Contents(to.entries))
  {
    ContentsKeepIdentity(from.entries);
    ContentsKeepIdentity(to.entries);
  }

  /** A difference is empty exactly between snapshots that agree up to update times. */
  lemma EmptyDifference(from: Snapshot, to: Snapshot)
    ensures Diff(from, to) == Difference(map[], map[], map[])
       <==> SameButUpdateTime(Contents(from.entries), Contents(to.entries))
  {
    var a, b, d := Contents(from.entries), Contents(to.entries), Diff(from, to);
    ContentsKeepIdentity(from.entries);
    ContentsKeepIdentity(to.entries);
    if d == Difference(map[], map[], map[]) {
      forall id ensures id in a <==> id in b {
        assert id !in d.added && id !in d.removed;
      }
      forall id | id in a ensures a[id].(updatedAt := b[id].updatedAt) == b[id] {
        assert id !in d.changed;
      }
    }
    if SameButUpdateTime(a, b) {
      assert d.added == map[] && d.removed == map[] && d.changed == map[];
    }
  }

  // ----- Mutations -----

  function IndexOf(entries: seq<UniverseEntry>, id: Identity): (i: int)
    ensures -1 <= i < |entries|
    ensures i >= 0 ==> entries[i].identity == id
    ensures i < 0 <==> forall k :: 0 <= k < |entries| ==> entries[k].identity != id
  {
    if entries == [] then -1
    else if entries[0].identity == id then 0
    else
      var i := IndexOf(entries[1..], id);
      assert forall k :: 1 <= k < |entries| ==> entries[k] == entries[1..][k - 1];
      if i < 0 then -1 else i + 1
  }

  datatype Plan = Plan(entries: seq<UniverseEntry>, changed: set<Field>)

  function OperationOf(m: Mutation): Operation {
    match m
    case Add(_, _, _, _, _) => AddOp
    case Update(_, _, _, _) => UpdateOp
    case Enable(_) => EnableOp
    case Disable(_) => DisableOp
    case Remove(_) => RemoveOp
  }

  function TextError(displayName: bool, symbolHint: bool, ownerNote: bool): Option<MutationError> {
    if !displayName then Some(DisplayNameInvalid)
    else if !symbolHint then Some(SymbolHintInvalid)
    else if !ownerNote then Some(OwnerNoteInvalid)
    else None
  }

  /** The entry that an update, an enabling or a disabling turns an entry into. */
  function Edited(e: UniverseEntry, m: Mutation, now: Time): UniverseEntry {
    match m
    case Update(_, d, s, o) =>
      e.(displayName := Changed(e.displayName, d), symbolHint := Changed(e.symbolHint, s), ownerNote := Changed(e.ownerNote, o), updatedAt := now)
    case Enable(_) => e.(enabled := true, updatedAt := now)
    case Disable(_) => e.(enabled := false, updatedAt := now)
    case _ => e
  }

  function Planned(entries: seq<UniverseEntry>, m: Mutation, now: Time, actor: string): Result<Plan, MutationError> {
    var i := IndexOf(entries, m.identity);
    if m.Add? then
      if i >= 0 then Err(DuplicateIdentity)
      else if |entries| >= MAX_ENTRIES then Err(TooManyEntries)
      else
        var error := TextError(ValidOptional(m.displayName, 120), ValidOptional(m.symbolHint, 120), ValidOptional(m.ownerNote, 500));
        if error.Some? then Err(error.value)
        else
          var enabled := m.enabled.None? || m.enabled.value;
          Ok(Plan(entries + [UniverseEntry(m.identity, enabled, m.displayName, m.symbolHint, m.ownerNote, now, now, actor)], {WholeEntry}))
    else if i < 0 then Err(EntryNotFound)
    else if m.Remove? then Ok(Plan(entries[..i] + entries[i + 1..], {WholeEntry}))
    else
      var error := if m.Update?
        then TextError(ValidChange(m.displayNameTo, 120), ValidChange(m.symbolHintTo, 120), ValidChange(m.ownerNoteTo, 500))
        else None;
      var edited := Edited(entries[i], m, now);
      if error.Some? then Err(error.value)
      else if ChangedFields(entries[i], edited) == {} then Err(NoChanges)
      else Ok(Plan(entries[i := edited], ChangedFields(entries[i], edited)))
  }

  predicate TimesInOrder(entries: seq<UniverseEntry>) {
    forall k :: 0 <= k < |entries| ==> entries[k].addedAt <= entries[k].updatedAt
  }

  function Take<T>(s: seq<T>, n: nat): seq<T> {
    if |s| <= n then s else s[..n]
  }

  /** The store after a mutation, or why it is refused. */
  function Mutated(s: UniverseStore, m: Mutation, now: Time, actor: string): Result<UniverseStore, MutationError> {
    var plan := Planned(s.current.entries, m, now, actor);
    if plan.Err? then Err(plan.error)
    else if s.current.version >= LAST_VERSION then Err(VersionExhausted)
    else if !TimesInOrder(plan.value.entries) then Err(UpdatedAtInvalid)
    else
      var version := s.current.version + 1;
      var audit := Audit(OperationOf(m), m.identity, plan.value.changed, s.current.version, version, now, actor);
      Ok(UniverseStore(
        Snapshot(version, now, plan.value.entries),
        Take([s.current] + s.history, HISTORY_LIMIT),
        Take([audit] + s.audit, AUDIT_LIMIT)))
  }

  datatype Receipt = Receipt(fromVersion: nat, toVersion: nat, changed: set<Field>, total: nat, checksum: Digest)

  /** The managed store file. A mutation is planned on a copy and swapped in when it applies. */
  class UniverseManager {
    var store: UniverseStore

    constructor (initial: Snapshot)
      ensures store == UniverseStore(initial, [], [])
    {
      store := UniverseStore(initial, [], []);
    }

    /** The edited copy of the entries and the fields that changed. */
    method EditEntries(m: Mutation, now: Time, actor: string) returns (r: Result<Plan, MutationError>)
      ensures r == Planned(store.current.entries, m, now, actor)
    {
      var existing := IndexOf(store.current.entries, m.identity);
      var entries := store.current.entries;
      if m.Add? {
        if existing >= 0 { return Err(DuplicateIdentity); }
        if |entries| >= MAX_ENTRIES { return Err(TooManyEntries); }
        if !ValidOptional(m.displayName, 120) { return Err(DisplayNameInvalid); }
        if !ValidOptional(m.symbolHint, 120) { return Err(SymbolHintInvalid); }
        if !ValidOptional(m.ownerNote, 500) { return Err(OwnerNoteInvalid); }
        var enabled := if m.enabled.Some? then m.enabled.value else true;
        entries := entries + [UniverseEntry(m.identity, enabled, m.displayName, m.symbolHint, m.ownerNote, now, now, actor)];
        return Ok(Plan(entries, {WholeEntry}));
      }
      if existing < 0 { return Err(EntryNotFound); }
      var entry := entries[existing];
      if m.Remove? {
        return Ok(Plan(entries[..existing] + entries[existing + 1..], {WholeEntry}));
      }
      if m.Enable? || m.Disable? {
        if entry.enabled == m.Enable? { return Err(NoChanges); }
        entries := entries[existing := entry.(enabled := m.Enable?, updatedAt := now)];
        assert ChangedFields(entry, entries[existing]) == {Enabled};
        return Ok(Plan(entries, {Enabled}));
      }
      var next, changed := entry, {};
      if !ValidChange(m.displayNameTo, 120) { return Err(DisplayNameInvalid); }
      next := next.(displayName := Changed(next.displayName, m.displayNameTo));
      if next.displayName != entry.displayName { changed := changed + {DisplayName}; }
      if !ValidChange(m.symbolHintTo, 120) { return Err(SymbolHintInvalid); }
      next := next.(symbolHint := Changed(next.symbolHint, m.symbolHintTo));
      if next.symbolHint != entry.symbolHint { changed := changed + {SymbolHint}; }
      if !ValidChange(m.ownerNoteTo, 500) { return Err(OwnerNoteInvalid); }
      next := next.(ownerNote := Changed(next.ownerNote, m.ownerNoteTo));
      if next.ownerNote != entry.ownerNote { changed := changed + {OwnerNote}; }
      next := next.(updatedAt := now);
      assert changed == ChangedFields(entry, next);
      if changed == {} { return Err(NoChanges); }
      return Ok(Plan(entries[existing := next], changed));
    }

    /** Refuses a caller whose expectations are out of date; writes only when told to apply. */
    method Mutate(m: Mutation, now: Time, actor: string, apply: bool, expectedVersion: Option<nat>, expectedChecksum: Option<Digest>)
      returns (r: Result<Receipt, MutationError>)
      modifies `store
      ensures var current := old(store).current;
              var stale := (expectedVersion.Some? && expectedVersion.value != current.version)
                        || (expectedChecksum.Some? && expectedChecksum.value != Checksum(current));
              var planned := Mutated(old(store), m, now, actor);
              && (stale ==> r == Err(Stale) && store == old(store))
              && (!stale && planned.Err? ==> r == Err(planned.error) && store == old(store))
              && (!stale && planned.Ok? ==>
                    && store == (if apply then planned.value else old(store))
                    && r == Ok(Receipt(current.version, current.version + 1, planned.value.audit[0].changed,
                                       |planned.value.current.entries|, Checksum(planned.value.current))))
    {
      var current := store.current;
      if expectedVersion.Some? && current.version != expectedVersion.value { return Err(Stale); }
      if expectedChecksum.Some? && Checksum(current) != expectedChecksum.value { return Err(Stale); }
      var edited := EditEntries(m, now, actor);
      if edited.Err? { return Err(edited.error); }
      var plan := edited.value;
      if current.version + 1 > LAST_VERSION { return Err(VersionExhausted); }
      var version := current.version + 1;
      for k := 0 to |plan.entries|
        invariant forall j :: 0 <= j < k ==> plan.entries[j].addedAt <= plan.entries[j].updatedAt
      {
        if plan.entries[k].updatedAt < plan.entries[k].addedAt { return Err(UpdatedAtInvalid); }
      }
      var next := Snapshot(version, now, plan.entries);
      var audit := Audit(OperationOf(m), m.identity, plan.changed, current.version, version, now, actor);
      if apply {
        store := UniverseStore(next, Take([current] + store.history, HISTORY_LIMIT), Take([audit] + store.audit, AUDIT_LIMIT));
      }
      return Ok(Receipt(current.version, version, plan.changed, |plan.entries|, Checksum(next)));
    }

    method FindVersion(version: nat) returns (found: Option<Snapshot>)
      ensures found == Found(store, version)
    {
      if store.current.version == version { return Some(store.current); }
      for k := 0 to |store.history|
        invariant store.current.version != version
        invariant forall j :: 0 <= j < k ==> store.history[j].version != version
      {
        if store.history[k].version == version {
          FirstIsFound([store.current] + store.history, version, k + 1);
          return Some(store.history[k]);
        }
      }
      NoneIsFound([store.current] + store.history, version);
      return None;
    }
  }

  /** The first snapshot of a version among the current one and the history. */
  function Found(s: UniverseStore, version: nat): Option<Snapshot> {
    FirstOf([s.current] + s.history, version)
  }

  function FirstOf(us: seq<Snapshot>, version: nat): Option<Snapshot> {
    if us == [] then None else if us[0].version == version then Some(us[0]) else FirstOf(us[1..], version)
  }

  lemma {:induction false} FirstIsFound(us: seq<Snapshot>, version: nat, k: nat)
    requires k < |us| && us[k].version == version && forall j :: 0 <= j < k ==> us[j].version != version
    ensures FirstOf(us, version) == Some(us[k])
  {
    if k > 0 { FirstIsFound(us[1..], version, k - 1); }
  }

  lemma {:induction false} NoneIsFound(us: seq<Snapshot>, version: nat)
    requires forall j :: 0 <= j < |us| ==> us[j].version != version
    ensures FirstOf(us, version) == None
  {
    if us != [] { NoneIsFound(us[1..], version); }
  }
}
