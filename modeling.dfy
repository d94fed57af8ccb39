/** Entity extraction and the per-user rollup (src/modeling.py). */
module Modeling {
  import opened Common
  import opened Strings
  import opened Tables

  type ContactId = string

  /** One row of the cleaned, sparse source table. The Contact ID is always present. */
  datatype RawRow = RawRow(
    contactId: ContactId,
    contactCreated: Option<Time>,
    contactUpdated: Option<Time>,
    fieldTitle: Option<string>,
    fieldValue: Option<string>,
    eventId: Option<string>,
    eventCategory: Option<string>,
    eventCreated: Option<Time>,
    eventHash: Option<string>)

  datatype Contact = Contact(id: ContactId, createdAt: Option<Time>, updatedAt: Option<Time>)

  datatype Utm = Utm(id: ContactId, source: string)

  datatype Event = Event(contactId: ContactId, eventId: string, category: Option<string>, createdAt: Option<Time>, hash: Option<string>)

  /** An event joined to its contact's creation instant, with the after-acquisition flag. */
  datatype EnrichedEvent = EnrichedEvent(event: Event, contactCreatedAt: Option<Time>, isAfterAcq: bool)

  /** One row of the users table. */
  datatype User = User(
    contact: Contact,
    utmSource: string,
    totalEvents: nat,
    eventsAfterAcq: nat,
    firstEventAt: Option<Time>,
    distinctEventDays: nat,
    engaged: bool,
    retained: bool)

  const UtmTitle: string := "utm_source"
  const Unknown: string := "unknown"

  /** The funnel thresholds: engaged from one event after acquisition, retained from two active days. */
  const EngagedMinEvents: nat := 1
  const RetainedMinDays: nat := 2

  function RowKey(row: RawRow): ContactId { row.contactId }
  function ContactKey(c: Contact): ContactId { c.id }
  function UtmKey(u: Utm): ContactId { u.id }
  function UtmSource(u: Utm): string { u.source }
  function EventKey(e: Event): ContactId { e.contactId }
  function ContactCreated(c: Contact): Option<Time> { c.createdAt }
  function EnrichedKey(e: EnrichedEvent): ContactId { e.event.contactId }

  // ---------------------------------------------------------------- build_contacts

  function ContactOf(row: RawRow): Contact {
    Contact(row.contactId, row.contactCreated, row.contactUpdated)
  }

  /** `build_contacts`: one contact per Contact ID of the input, taken from the first row that
      carries it (dates included, missing or not), in the order of those first rows. */
  function BuildContacts(rows: seq<RawRow>): (r: seq<Contact>)
    ensures Keys(r, ContactKey) == Keys(rows, RowKey)
    ensures Unique(r, ContactKey)
    ensures forall a :: 0 <= a < |r| ==>
      r[a].id in Keys(rows, RowKey) && r[a] == ContactOf(rows[FirstIndex(rows, RowKey, r[a].id)])
    ensures forall a, b :: 0 <= a < b < |r| ==>
      FirstIndex(rows, RowKey, r[a].id) < FirstIndex(rows, RowKey, r[b].id)
  {
    ProjectKeys(rows, ContactOf, RowKey, ContactKey);
    DedupBy(Project(rows, ContactOf), ContactKey)
  }

  // ---------------------------------------------------------------- extract_utm

  /** A row the UTM table keeps before deduplication: title exactly "utm_source", value present. */
  predicate IsUtmRow(row: RawRow) {
    row.fieldTitle == Some(UtmTitle) && row.fieldValue.Some?
  }

  /** The UTM row a "utm_source" row with a value projects to. */
  function UtmOf(row: RawRow): Utm
    requires IsUtmRow(row)
  {
    Utm(row.contactId, row.fieldValue.value)
  }

  /** `u` is the projection of some "utm_source" row of `rows` that has a value. */
  ghost predicate UtmFrom(rows: seq<RawRow>, u: Utm) {
    exists j :: 0 <= j < |rows| && IsUtmRow(rows[j]) && u == UtmOf(rows[j])
  }

  /** The title filter, the projection and `dropna()`, in the order of the input. */
  function UtmCandidates(rows: seq<RawRow>): (r: seq<Utm>)
    ensures |r| <= |rows|
    ensures forall i :: 0 <= i < |r| ==> UtmFrom(rows, r[i])
  {
    if rows == [] then []
    else
      var rest := UtmCandidates(rows[1..]);
      assert forall i :: 0 <= i < |rest| ==> UtmFrom(rows, rest[i]) by {
        forall i | 0 <= i < |rest| ensures UtmFrom(rows, rest[i]) {
          var j :| 0 <= j < |rows[1..]| && IsUtmRow(rows[1..][j]) && rest[i] == UtmOf(rows[1..][j]);
          assert rows[j + 1] == rows[1..][j];
        }
      }
      (if IsUtmRow(rows[0]) then [UtmOf(rows[0])] else []) + rest
  }

  /** `str.strip().str.lower()`. */
  function Normalize(s: string): (r: string)
    ensures IsTrimmed(r)
    ensures forall i :: 0 <= i < |r| ==> !IsUpper(r[i])
  {
    LowerKeepsTrimmed(Trim(s));
    Lower(Trim(s))
  }

  /** Labels that differ only in surrounding whitespace normalise to the lower-cased label. */
  lemma NormalizeSplit(p: string, core: string, q: string)
    requires AllSpace(p) && AllSpace(q) && IsTrimmed(core)
    ensures Normalize(p + core + q) == Lower(core)
  {
    TrimSplit(p, core, q);
  }

  /** Labels that differ only in letter case normalise to the same label. */
  lemma NormalizeCaseBlind(a: string, b: string)
    requires |a| == |b| && forall i :: 0 <= i < |a| ==> LowerChar(a[i]) == LowerChar(b[i])
    ensures Normalize(a) == Normalize(b)
  {
    assert Lower(a) == Lower(b);
    LowerTrimCommute(a);
    LowerTrimCommute(b);
  }

  function NormalizeUtm(u: Utm): Utm {
    Utm(u.id, Normalize(u.source))
  }

  /** `extract_utm`: at most one source per contact, stripped and lower-cased. */
  function ExtractUtm(rows: seq<RawRow>): (r: seq<Utm>)
    ensures Unique(r, UtmKey)
    ensures forall a :: 0 <= a < |r| ==> IsTrimmed(r[a].source)
    ensures forall a, i :: 0 <= a < |r| && 0 <= i < |r[a].source| ==> !IsUpper(r[a].source[i])
  {
    var kept := DedupBy(UtmCandidates(rows), UtmKey);
    var r := Project(kept, NormalizeUtm);
    KeysAligned(kept, UtmKey, r, UtmKey);
    r
  }

  /** The reference reading of the UTM rule: scanning the rows from the front, the value of the
      first row of contact `id` with title "utm_source" and a value. */
  function FirstUtmValue(rows: seq<RawRow>, id: ContactId): (r: Option<string>)
    ensures r.None? <==> forall i :: 0 <= i < |rows| && rows[i].contactId == id ==> !IsUtmRow(rows[i])
    ensures r.Some? ==> exists i :: FirstUtmAt(rows, id, i) && rows[i].fieldValue.value == r.value
  {
    if rows == [] then None
    else if rows[0].contactId == id && IsUtmRow(rows[0]) then
      assert FirstUtmAt(rows, id, 0);
      Some(rows[0].fieldValue.value)
    else
      var r := FirstUtmValue(rows[1..], id);
      FirstUtmShift(rows, id);
      r
  }

  /** Row `i` is the first UTM row of contact `id`. */
  ghost predicate FirstUtmAt(rows: seq<RawRow>, id: ContactId, i: int) {
    && 0 <= i < |rows| && rows[i].contactId == id && IsUtmRow(rows[i])
    && forall j :: 0 <= j < i && rows[j].contactId == id ==> !IsUtmRow(rows[j])
  }

  /** When the head row is not a UTM row of `id`, the first UTM row of `id` is found in the tail. */
  lemma FirstUtmShift(rows: seq<RawRow>, id: ContactId)
    requires rows != [] && !(rows[0].contactId == id && IsUtmRow(rows[0]))
    ensures forall i :: FirstUtmAt(rows[1..], id, i) ==> FirstUtmAt(rows, id, i + 1)
    ensures (forall i :: 0 <= i < |rows[1..]| && rows[1..][i].contactId == id ==> !IsUtmRow(rows[1..][i]))
      ==> forall i :: 0 <= i < |rows| && rows[i].contactId == id ==> !IsUtmRow(rows[i])
  {
    forall i | FirstUtmAt(rows[1..], id, i) ensures FirstUtmAt(rows, id, i + 1) {
      assert rows[i + 1] == rows[1..][i];
      forall j | 0 <= j < i + 1 && rows[j].contactId == id ensures !IsUtmRow(rows[j]) {
        if j > 0 { assert rows[j] == rows[1..][j - 1]; }
      }
    }
    if forall i :: 0 <= i < |rows[1..]| && rows[1..][i].contactId == id ==> !IsUtmRow(rows[1..][i]) {
      forall i | 0 <= i < |rows| && rows[i].contactId == id ensures !IsUtmRow(rows[i]) {
        if i > 0 { assert rows[i] == rows[1..][i - 1]; }
      }
    }
  }

  lemma {:induction false} FindUtmCandidates(rows: seq<RawRow>, id: ContactId)
    ensures Find(UtmCandidates(rows), UtmKey, id)
      == if FirstUtmValue(rows, id).Some? then Some(Utm(id, FirstUtmValue(rows, id).value)) else None
  {
    if rows != [] {
      FindUtmCandidates(rows[1..], id);
      var c := UtmCandidates(rows);
      var rest := UtmCandidates(rows[1..]);
      if IsUtmRow(rows[0]) {
        assert c[1..] == rest;
      } else {
        assert c == rest;
      }
    }
  }

  /** The UTM table holds, for each contact, exactly the normalised value of its first "utm_source"
      row that has a value: a row with a missing value is dropped before it could hide a later one,
      and deduplication happens before normalisation. */
  lemma ExtractUtmFirst(rows: seq<RawRow>, id: ContactId)
    ensures Find(ExtractUtm(rows), UtmKey, id)
      == if FirstUtmValue(rows, id).Some? then Some(Utm(id, Normalize(FirstUtmValue(rows, id).value))) else None
  {
    var cands := UtmCandidates(rows);
    var kept := DedupBy(cands, UtmKey);
    FindUtmCandidates(rows, id);
    DedupFind(cands, UtmKey, id);
    FindProject(kept, NormalizeUtm, UtmKey, UtmKey, id);
  }

  // ---------------------------------------------------------------- build_events

  predicate IsEventRow(row: RawRow) {
    row.eventId.Some?
  }

  function EventOf(row: RawRow): Event
    requires IsEventRow(row)
  {
    Event(row.contactId, row.eventId.value, row.eventCategory, row.eventCreated, row.eventHash)
  }

  /** The positions of the rows that carry an Events ID. */
  function EventRows(rows: seq<RawRow>): set<nat> {
    set i: nat | i < |rows| && IsEventRow(rows[i])
  }

  /** `build_events`: one event per row with an Events ID, in the order of the rows; nothing is
      deduplicated, so there are exactly as many events as such rows. */
  function BuildEvents(rows: seq<RawRow>): (r: seq<Event>)
    ensures |r| == |EventRows(rows)|
    ensures forall e :: e in r <==> EventFrom(rows, e)
  {
    if rows == [] then []
    else
      var d := BuildEvents(rows[..|rows| - 1]);
      var last := rows[|rows| - 1];
      EventsSnoc(rows, d);
      d + (if IsEventRow(last) then [EventOf(last)] else [])
  }

  /** `e` is the event of some row with an Events ID. */
  ghost predicate EventFrom(rows: seq<RawRow>, e: Event) {
    exists i :: 0 <= i < |rows| && IsEventRow(rows[i]) && e == EventOf(rows[i])
  }

  /** Appending a row adds its event, if it has one, to the events of the rows before it. */
  lemma EventsSnoc(rows: seq<RawRow>, d: seq<Event>)
    requires rows != []
    requires |d| == |EventRows(rows[..|rows| - 1])|
    requires forall e :: e in d <==> EventFrom(rows[..|rows| - 1], e)
    ensures var last := rows[|rows| - 1];
      var r := d + (if IsEventRow(last) then [EventOf(last)] else []);
      |r| == |EventRows(rows)| && forall e :: e in r <==> EventFrom(rows, e)
  {
    var init := rows[..|rows| - 1];
    var last := rows[|rows| - 1];
    var r := d + (if IsEventRow(last) then [EventOf(last)] else []);
    assert EventRows(rows) == EventRows(init) + (if IsEventRow(last) then {|init|} else {}) by {
      forall i: nat | i < |init| ensures rows[i] == init[i] {}
    }
    forall e | e in r ensures EventFrom(rows, e) {
      if e in d {
        var i :| 0 <= i < |init| && IsEventRow(init[i]) && e == EventOf(init[i]);
        assert rows[i] == init[i];
      } else {
        assert rows[|rows| - 1] == last;
      }
    }
    forall e | EventFrom(rows, e) ensures e in r {
      var i :| 0 <= i < |rows| && IsEventRow(rows[i]) && e == EventOf(rows[i]);
      if i < |init| { assert init[i] == rows[i]; assert EventFrom(init, e); }
    }
  }

  /** Event extraction works row by row: it commutes with concatenating tables. */
  lemma {:induction false} BuildEventsAppend(a: seq<RawRow>, b: seq<RawRow>)
    ensures BuildEvents(a + b) == BuildEvents(a) + BuildEvents(b)
  {
    if b != [] {
      var bi := b[..|b| - 1];
      assert (a + b)[..|a + b| - 1] == a + bi;
      assert (a + b)[|a + b| - 1] == b[|b| - 1];
      BuildEventsAppend(a, bi);
    } else {
      assert a + b == a;
    }
  }

  // ---------------------------------------------------------------- rollup_users

  /** `event_created_at >= contact_created_at`, where a comparison with a missing instant is false. */
  predicate AfterAcq(eventAt: Option<Time>, contactAt: Option<Time>)
    ensures AfterAcq(eventAt, contactAt) ==> eventAt.Some? && contactAt.Some?
    ensures eventAt.Some? && contactAt.Some? ==> (AfterAcq(eventAt, contactAt) <==> !(eventAt.value < contactAt.value))
  {
    eventAt.Some? && contactAt.Some? && eventAt.value >= contactAt.value
  }

  /** `users = contacts.merge(utm, how="left")` with the missing sources filled with "unknown". */
  function JoinUtm(contacts: seq<Contact>, utm: seq<Utm>): (r: seq<(Contact, string)>)
    ensures |r| == JoinSize(contacts, ContactKey, utm, UtmKey) >= |contacts|
    ensures forall k :: 0 <= k < |r| ==> r[k].0 in contacts
    ensures forall k :: 0 <= k < |r| && r[k].0.id in Keys(utm, UtmKey) ==> PayloadOf(utm, UtmKey, UtmSource, r[k].0.id, r[k].1)
    ensures forall k :: 0 <= k < |r| && r[k].0.id !in Keys(utm, UtmKey) ==> r[k].1 == Unknown
  {
    var j := LeftJoin(contacts, ContactKey, utm, UtmKey, UtmSource);
    seq(|j|, k requires 0 <= k < |j| => (j[k].0, if j[k].1.Some? then j[k].1.value else Unknown))
  }

  /** `ea = events.merge(contacts[[id, created]], how="left")` and the after-acquisition flag. */
  function Enrich(events: seq<Event>, contacts: seq<Contact>): (ea: seq<EnrichedEvent>)
    ensures |ea| == JoinSize(events, EventKey, contacts, ContactKey) >= |events|
    ensures forall k :: 0 <= k < |ea| ==> ea[k].event in events
    ensures forall k :: 0 <= k < |ea| ==> ea[k].isAfterAcq == AfterAcq(ea[k].event.createdAt, ea[k].contactCreatedAt)
    ensures forall k :: 0 <= k < |ea| && ea[k].event.contactId in Keys(contacts, ContactKey) ==>
      PayloadOf(contacts, ContactKey, ContactCreated, ea[k].event.contactId, ea[k].contactCreatedAt)
    ensures forall k :: 0 <= k < |ea| && ea[k].event.contactId !in Keys(contacts, ContactKey) ==> ea[k].contactCreatedAt.None?
  {
    var j := LeftJoin(events, EventKey, contacts, ContactKey, ContactCreated);
    seq(|j|, k requires 0 <= k < |j| =>
      var created := if j[k].1.Some? then j[k].1.value else None;
      EnrichedEvent(j[k].0, created, AfterAcq(j[k].0.createdAt, created)))
  }

  /** The source a contact is attributed to: its UTM value, or "unknown". */
  function ResolveSource(utm: seq<Utm>, id: ContactId): string {
    match Lookup(utm, UtmKey, UtmSource, id)
    case Some(source) => source
    case None => Unknown
  }

  /** The creation instant of an event's contact as the merge sees it: missing for an orphan event. */
  function CreatedOf(contacts: seq<Contact>, id: ContactId): Option<Time> {
    match Lookup(contacts, ContactKey, ContactCreated, id)
    case Some(created) => created
    case None => None
  }

  /** With a deduplicated UTM table every contact gets exactly one users row, in contact order,
      attributed to its UTM value or to "unknown". */
  lemma JoinUtmOneToOne(contacts: seq<Contact>, utm: seq<Utm>)
    requires Unique(utm, UtmKey)
    ensures |JoinUtm(contacts, utm)| == |contacts|
    ensures forall k :: 0 <= k < |contacts| ==> JoinUtm(contacts, utm)[k] == (contacts[k], ResolveSource(utm, contacts[k].id))
  {
    LeftJoinUnique(contacts, ContactKey, utm, UtmKey, UtmSource);
  }

  /** With deduplicated contacts every event is classified once, in event order: it is after
      acquisition exactly when its own instant and its contact's are both present and the event's
      is not earlier. An orphan event, or one of a contact without a creation date, is not. */
  lemma EnrichOneToOne(events: seq<Event>, contacts: seq<Contact>)
    requires Unique(contacts, ContactKey)
    ensures |Enrich(events, contacts)| == |events|
    ensures forall k :: 0 <= k < |events| ==>
      var e := Enrich(events, contacts)[k];
      && e.event == events[k]
      && e.contactCreatedAt == CreatedOf(contacts, events[k].contactId)
      && (e.isAfterAcq <==> events[k].createdAt.Some? && CreatedOf(contacts, events[k].contactId).Some?
                            && events[k].createdAt.value >= CreatedOf(contacts, events[k].contactId).value)
  {
    LeftJoinUnique(events, EventKey, contacts, ContactKey, ContactCreated);
  }

  /** An event at the very instant of its contact's creation counts as after acquisition. */
  lemma SameInstantIsAfter(t: Time)
    ensures AfterAcq(Some(t), Some(t))
    ensures !AfterAcq(None, Some(t)) && !AfterAcq(Some(t), None)
  {
  }

  /** The per-contact group-by accumulator: distinct event ids, after-acquisition rows, earliest
      instant, distinct calendar days. */
  datatype Acc = Acc(ids: set<string>, after: nat, first: Option<Time>, days: set<int>)

  const EmptyAcc: Acc := Acc({}, 0, None, {})

  /** `nunique` of the event ids of contact `id`. */
  function EventIds(ea: seq<EnrichedEvent>, id: ContactId): set<string> {
    set k | 0 <= k < |ea| && ea[k].event.contactId == id :: ea[k].event.eventId
  }

  /** The rows of contact `id` flagged after acquisition; `sum` of the flag is their number. */
  function AfterRows(ea: seq<EnrichedEvent>, id: ContactId): set<nat> {
    set k: nat | k < |ea| && ea[k].event.contactId == id && ea[k].isAfterAcq
  }

  /** The calendar days of the present event instants of contact `id`. */
  function EventDays(ea: seq<EnrichedEvent>, id: ContactId): set<int> {
    set k | 0 <= k < |ea| && ea[k].event.contactId == id && ea[k].event.createdAt.Some? :: Day(ea[k].event.createdAt.value)
  }

  /** `min` that skips missing instants. */
  function MinTime(a: Option<Time>, b: Option<Time>): (r: Option<Time>)
    ensures r.None? <==> a.None? && b.None?
    ensures r.Some? ==> r == a || r == b
    ensures a.Some? ==> r.Some? && r.value <= a.value
    ensures b.Some? ==> r.Some? && r.value <= b.value
  {
    if a.None? then b
    else if b.None? then a
    else if b.value < a.value then b else a
  }

  /** The earliest present event instant of contact `id`, missing when there is none. */
  function FirstEventAt(ea: seq<EnrichedEvent>, id: ContactId): (r: Option<Time>)
    ensures r.None? <==> forall k :: 0 <= k < |ea| && ea[k].event.contactId == id ==> ea[k].event.createdAt.None?
    ensures r.Some? ==> exists k :: 0 <= k < |ea| && ea[k].event.contactId == id && ea[k].event.createdAt == r
    ensures r.Some? ==> forall k :: 0 <= k < |ea| && ea[k].event.contactId == id && ea[k].event.createdAt.Some? ==>
      r.value <= ea[k].event.createdAt.value
  {
    if ea == [] then None
    else
      var init := ea[..|ea| - 1];
      var last := ea[|ea| - 1];
      var before := FirstEventAt(init, id);
      assert forall k :: 0 <= k < |init| ==> ea[k] == init[k];
      if last.event.contactId == id then MinTime(before, last.event.createdAt) else before
  }

  /** The group-by result of contact `id`: its accumulator over all of `ea`. */
  function Stats(ea: seq<EnrichedEvent>, id: ContactId): Acc {
    Acc(EventIds(ea, id), |AfterRows(ea, id)|, FirstEventAt(ea, id), EventDays(ea, id))
  }

  /** A contact has event ids exactly when it has event rows, and nothing after acquisition and no
      day without them; its first instant is missing exactly when it has no day. */
  lemma StatsShape(ea: seq<EnrichedEvent>, id: ContactId)
    ensures var s := Stats(ea, id);
      && (s.ids == {} <==> id !in Keys(ea, EnrichedKey))
      && (s.after > 0 || s.days != {} ==> s.ids != {})
      && (s.first.None? <==> s.days == {})
  {
    var s := Stats(ea, id);
    if id in Keys(ea, EnrichedKey) {
      var i :| 0 <= i < |ea| && EnrichedKey(ea[i]) == id;
      assert ea[i].event.eventId in s.ids;
    }
    if s.after > 0 {
      var i :| i in AfterRows(ea, id);
      assert ea[i].event.eventId in s.ids;
    }
    if s.days != {} {
      var d :| d in s.days;
      var i :| 0 <= i < |ea| && ea[i].event.contactId == id && ea[i].event.createdAt.Some? && Day(ea[i].event.createdAt.value) == d;
      assert ea[i].event.eventId in s.ids;
      assert s.first.Some?;
    }
    if s.first.Some? {
      var i :| 0 <= i < |ea| && ea[i].event.contactId == id && ea[i].event.createdAt == s.first;
      assert Day(ea[i].event.createdAt.value) in s.days;
    }
  }

  /** One accumulation step of the group-by. */
  function Add(acc: Acc, e: EnrichedEvent): Acc {
    Acc(
      acc.ids + {e.event.eventId},
      acc.after + (if e.isAfterAcq then 1 else 0),
      MinTime(acc.first, e.event.createdAt),
      acc.days + (if e.event.createdAt.Some? then {Day(e.event.createdAt.value)} else {}))
  }

  lemma EventIdsSnoc(ea: seq<EnrichedEvent>, e: EnrichedEvent, id: ContactId)
    ensures EventIds(ea + [e], id) == EventIds(ea, id) + (if e.event.contactId == id then {e.event.eventId} else {})
  {
    var s := ea + [e];
    assert forall k :: 0 <= k < |ea| ==> s[k] == ea[k];
    assert s[|ea|] == e;
  }

  lemma AfterRowsSnoc(ea: seq<EnrichedEvent>, e: EnrichedEvent, id: ContactId)
    ensures AfterRows(ea + [e], id) == AfterRows(ea, id) + (if e.event.contactId == id && e.isAfterAcq then {|ea|} else {})
  {
    var s := ea + [e];
    assert forall k :: 0 <= k < |ea| ==> s[k] == ea[k];
    assert s[|ea|] == e;
  }

  lemma EventDaysSnoc(ea: seq<EnrichedEvent>, e: EnrichedEvent, id: ContactId)
    ensures EventDays(ea + [e], id) == EventDays(ea, id)
      + (if e.event.contactId == id && e.event.createdAt.Some? then {Day(e.event.createdAt.value)} else {})
  {
    var s := ea + [e];
    assert forall k :: 0 <= k < |ea| ==> s[k] == ea[k];
    assert s[|ea|] == e;
  }

  /** Adding one more event row changes the statistics of its own contact by one accumulation step
      and those of every other contact not at all. */
  lemma StatsSnoc(ea: seq<EnrichedEvent>, e: EnrichedEvent, id: ContactId)
    ensures Stats(ea + [e], id) == if e.event.contactId == id then Add(Stats(ea, id), e) else Stats(ea, id)
  {
    FirstEventAtSnoc(ea, e, id);
    EventIdsSnoc(ea, e, id);
    AfterRowsSnoc(ea, e, id);
    EventDaysSnoc(ea, e, id);
    assert |ea| !in AfterRows(ea, id);
  }

  lemma FirstEventAtSnoc(ea: seq<EnrichedEvent>, e: EnrichedEvent, id: ContactId)
    ensures FirstEventAt(ea + [e], id)
      == if e.event.contactId == id then MinTime(FirstEventAt(ea, id), e.event.createdAt) else FirstEventAt(ea, id)
  {
    assert (ea + [e])[..|ea|] == ea;
  }

  /** A contact with no event rows has all-zero statistics. */
  lemma StatsAbsent(ea: seq<EnrichedEvent>, id: ContactId)
    requires id !in Keys(ea, EnrichedKey)
    ensures Stats(ea, id) == EmptyAcc
  {
    forall k | 0 <= k < |ea| ensures ea[k].event.contactId != id {
      assert EnrichedKey(ea[k]) in Keys(ea, EnrichedKey);
    }
    assert EventIds(ea, id) == {};
    assert AfterRows(ea, id) == {};
    assert EventDays(ea, id) == {};
  }

  /** One users row: the counts with the funnel flags derived from them. */
  function Finish(c: Contact, source: string, acc: Acc): (u: User)
    ensures u.engaged <==> u.eventsAfterAcq >= EngagedMinEvents
    ensures u.retained <==> u.distinctEventDays >= RetainedMinDays
  {
    User(c, source, |acc.ids|, acc.after, acc.first, |acc.days|, acc.after >= EngagedMinEvents, |acc.days| >= RetainedMinDays)
  }

  /** The users table: one row per row of the contact/UTM merge, with that contact's statistics. */
  function Users(joined: seq<(Contact, string)>, ea: seq<EnrichedEvent>): (r: seq<User>)
    ensures |r| == |joined|
    ensures forall k :: 0 <= k < |r| ==> r[k].contact == joined[k].0 && r[k].utmSource == joined[k].1
    ensures forall k :: 0 <= k < |r| ==>
      && (r[k].engaged <==> r[k].eventsAfterAcq >= EngagedMinEvents)
      && (r[k].retained <==> r[k].distinctEventDays >= RetainedMinDays)
      && (r[k].firstEventAt.None? <==> r[k].distinctEventDays == 0)
    ensures forall k :: 0 <= k < |r| ==> (r[k].totalEvents == 0 <==> joined[k].0.id !in Keys(ea, EnrichedKey))
    ensures forall k :: 0 <= k < |r| && joined[k].0.id !in Keys(ea, EnrichedKey) ==>
      r[k].eventsAfterAcq == 0 && r[k].distinctEventDays == 0 && !r[k].engaged && !r[k].retained
  {
    assert forall k :: 0 <= k < |joined| ==>
      var s := Stats(ea, joined[k].0.id);
      && (s.ids == {} <==> joined[k].0.id !in Keys(ea, EnrichedKey))
      && (s.after > 0 || s.days != {} ==> s.ids != {})
      && (s.first.None? <==> s.days == {})
    by {
      forall k | 0 <= k < |joined| {
        StatsShape(ea, joined[k].0.id);
      }
    }
    seq(|joined|, k requires 0 <= k < |joined| => Finish(joined[k].0, joined[k].1, Stats(ea, joined[k].0.id)))
  }

  /** The accumulators hold exactly the contacts that have rows in `done`, each with its statistics. */
  ghost predicate Accumulated(groups: map<ContactId, Acc>, done: seq<EnrichedEvent>) {
    && groups.Keys == Keys(done, EnrichedKey)
    && forall id :: id in groups ==> groups[id] == Stats(done, id)
  }

  /** The group-by of `rollup_users` as one pass over the classified events: the accumulators hold
      exactly the contacts that have event rows, each with its statistics. */
  method GroupEvents(ea: seq<EnrichedEvent>) returns (groups: map<ContactId, Acc>)
    ensures groups.Keys == Keys(ea, EnrichedKey)
    ensures forall id :: id in groups ==> groups[id] == Stats(ea, id)
  {
    groups := map[];
    for i := 0 to |ea|
      invariant Accumulated(groups, ea[..i])
    {
      var e := ea[i];
      var id := e.event.contactId;
      var acc := if id in groups then groups[id] else EmptyAcc;
      var next := groups[id := Add(acc, e)];
      GroupStep(groups, ea, i, next);
      groups := next;
    }
    assert ea[..|ea|] == ea;
  }

  /** One step of the group-by: adding an event to its contact's accumulator (the empty one for a
      contact not seen yet) keeps the accumulators equal to the statistics of the events so far. */
  lemma GroupStep(groups: map<ContactId, Acc>, ea: seq<EnrichedEvent>, i: nat, next: map<ContactId, Acc>)
    requires i < |ea| && Accumulated(groups, ea[..i])
    requires var id := ea[i].event.contactId;
      next == groups[id := Add(if id in groups then groups[id] else EmptyAcc, ea[i])]
    ensures Accumulated(next, ea[..i + 1])
  {
    var done, e := ea[..i], ea[i];
    assert ea[..i + 1] == done + [e];
    var id := e.event.contactId;
    if id !in groups {
      StatsAbsent(done, id);
    }
    KeysSnoc(done, e, EnrichedKey);
    forall other | other in next
      ensures next[other] == Stats(done + [e], other)
    {
      StatsSnoc(done, e, other);
    }
  }

  /** The merge of the group-by onto the users and the zero fill: contacts without an accumulator
      get the empty one. */
  method FillUsers(joined: seq<(Contact, string)>, ea: seq<EnrichedEvent>, groups: map<ContactId, Acc>) returns (users: seq<User>)
    requires groups.Keys == Keys(ea, EnrichedKey)
    requires forall id :: id in groups ==> groups[id] == Stats(ea, id)
    ensures users == Users(joined, ea)
  {
    users := [];
    for k := 0 to |joined|
      invariant users == Users(joined[..k], ea)
    {
      var (c, source) := joined[k];
      var acc := if c.id in groups then groups[c.id] else EmptyAcc;
      if c.id !in groups {
        StatsAbsent(ea, c.id);
      }
      users := users + [Finish(c, source, acc)];
      assert joined[..k + 1] == joined[..k] + [joined[k]];
    }
    assert joined[..|joined|] == joined;
  }

  /** `rollup_users`: merges the UTM sources onto the contacts, classifies the events, groups them
      per contact in one pass, and fills in each users row, zero for contacts without events. */
  method RollupUsers(contacts: seq<Contact>, utm: seq<Utm>, events: seq<Event>) returns (users: seq<User>, ea: seq<EnrichedEvent>)
    ensures ea == Enrich(events, contacts)
    ensures users == Users(JoinUtm(contacts, utm), ea)
  {
    var joined := JoinUtm(contacts, utm);
    ea := Enrich(events, contacts);
    var groups := GroupEvents(ea);
    users := FillUsers(joined, ea, groups);
  }

  /** A contact without events has no events, no events after acquisition, no first event and no
      active day, and is neither engaged nor retained. */
  lemma NoEventsNoFlags(ea: seq<EnrichedEvent>, c: Contact, source: string)
    requires c.id !in Keys(ea, EnrichedKey)
    ensures var u := Finish(c, source, Stats(ea, c.id));
      u.totalEvents == 0 && u.eventsAfterAcq == 0 && u.firstEventAt.None? && u.distinctEventDays == 0
      && !u.engaged && !u.retained
  {
    StatsAbsent(ea, c.id);
  }

  /** A contact is engaged exactly when one of its event rows is after acquisition. */
  lemma EngagedIff(ea: seq<EnrichedEvent>, c: Contact, source: string)
    ensures Finish(c, source, Stats(ea, c.id)).engaged
      <==> exists k :: 0 <= k < |ea| && ea[k].event.contactId == c.id && ea[k].isAfterAcq
  {
    var rows := AfterRows(ea, c.id);
    if exists k :: 0 <= k < |ea| && ea[k].event.contactId == c.id && ea[k].isAfterAcq {
      var k :| 0 <= k < |ea| && ea[k].event.contactId == c.id && ea[k].isAfterAcq;
      assert k in rows;
    }
  }

  /** Event rows `k1` and `k2` of contact `id` both have an instant, and the instants fall on
      different days. */
  ghost predicate OnDifferentDays(ea: seq<EnrichedEvent>, id: ContactId, k1: int, k2: int) {
    && 0 <= k1 < |ea| && 0 <= k2 < |ea|
    && ea[k1].event.contactId == id && ea[k2].event.contactId == id
    && ea[k1].event.createdAt.Some? && ea[k2].event.createdAt.Some?
    && Day(ea[k1].event.createdAt.value) != Day(ea[k2].event.createdAt.value)
  }

  /** A contact is retained exactly when two of its present event instants fall on different days. */
  lemma RetainedIff(ea: seq<EnrichedEvent>, c: Contact, source: string)
    ensures Finish(c, source, Stats(ea, c.id)).retained <==> exists k1, k2 :: OnDifferentDays(ea, c.id, k1, k2)
  {
    if |EventDays(ea, c.id)| >= 2 {
      TwoDaysWitness(ea, c.id);
    }
    if exists k1, k2 :: OnDifferentDays(ea, c.id, k1, k2) {
      var k1, k2 :| OnDifferentDays(ea, c.id, k1, k2);
      DifferentDaysCount(ea, c.id, k1, k2);
    }
  }

  lemma TwoDaysWitness(ea: seq<EnrichedEvent>, id: ContactId)
    requires |EventDays(ea, id)| >= 2
    ensures exists k1, k2 :: OnDifferentDays(ea, id, k1, k2)
  {
    var days := EventDays(ea, id);
    var d1 :| d1 in days;
    assert |days - {d1}| >= 1;
    var d2 :| d2 in days - {d1};
    var k1 :| 0 <= k1 < |ea| && ea[k1].event.contactId == id && ea[k1].event.createdAt.Some? && Day(ea[k1].event.createdAt.value) == d1;
    var k2 :| 0 <= k2 < |ea| && ea[k2].event.contactId == id && ea[k2].event.createdAt.Some? && Day(ea[k2].event.createdAt.value) == d2;
    assert OnDifferentDays(ea, id, k1, k2);
  }

  lemma DifferentDaysCount(ea: seq<EnrichedEvent>, id: ContactId, k1: int, k2: int)
    requires OnDifferentDays(ea, id, k1, k2)
    ensures |EventDays(ea, id)| >= 2
  {
    var d1, d2 := Day(ea[k1].event.createdAt.value), Day(ea[k2].event.createdAt.value);
    assert {d1, d2} <= EventDays(ea, id);
    assert |{d1, d2}| == 2;
    SubsetCard({d1, d2}, EventDays(ea, id));
  }

  lemma SubsetCard(a: set<int>, b: set<int>)
    requires a <= b
    ensures |a| <= |b|
  {
    assert b == a + (b - a);
  }

  /** `events_after_acq` counts rows and `total_events` distinct ids, so one event id listed twice
      after acquisition gives more after-acquisition events than events. */
  lemma AfterCanExceedTotal(c: Contact, t: Time)
    requires c.createdAt == Some(t)
    ensures var ev := Event(c.id, "e1", None, Some(t), None);
      var u := Finish(c, Unknown, Stats(Enrich([ev, ev], [c]), c.id));
      u.eventsAfterAcq == 2 && u.totalEvents == 1
  {
    var ev := Event(c.id, "e1", None, Some(t), None);
    var ea := Enrich([ev, ev], [c]);
    EnrichOneToOne([ev, ev], [c]);
    assert [c][0] == c;
    assert CreatedOf([c], c.id) == Some(t);
    assert ea[0].isAfterAcq && ea[1].isAfterAcq;
    assert forall x :: x in EventIds(ea, c.id) ==> x == "e1";
    assert EventIds(ea, c.id) == {"e1"} by {
      assert ea[0].event.eventId in EventIds(ea, c.id);
    }
    assert AfterRows(ea, c.id) == {0, 1};
  }

}
