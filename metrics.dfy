/** The per-source aggregates of the report (src/metrics.py). */
module Metrics {
  import opened Common
  import opened Tables
  import opened Modeling

  /** One row of the per-source table. Rates are exact quotients; the report rounds them. */
  datatype SourceMetrics = SourceMetrics(
    source: string,
    volume: nat,
    engagedUsers: nat,
    retentionUsers: nat,
    avgEventsPerUser: real,
    engagementRate: real,
    retentionRate: real)

  function SourceOf(u: User): string { u.utmSource }
  function UserKey(u: User): ContactId { u.contact.id }
  function MetricsSource(m: SourceMetrics): string { m.source }
  function AnySource(s: string): bool { true }

  /** The users attributed to source `s`, in table order. */
  function Group(users: seq<User>, s: string): (g: seq<User>)
    ensures |g| == CountKey(users, SourceOf, s)
    ensures g == [] <==> s !in Keys(users, SourceOf)
  {
    if users == [] then []
    else
      var init := users[..|users| - 1];
      var last := users[|users| - 1];
      assert users == init + [last];
      KeysSnoc(init, last, SourceOf);
      Group(init, s) + (if last.utmSource == s then [last] else [])
  }

  function Engaged(u: User): bool { u.engaged }
  function Retained(u: User): bool { u.retained }

  /** The positions of the users with `flag` set. */
  function FlaggedRows(g: seq<User>, flag: User -> bool): set<nat> {
    set i: nat | i < |g| && flag(g[i])
  }

  /** The sum of a boolean column: the number of users with `flag` set. */
  function FlagCount(g: seq<User>, flag: User -> bool): (n: nat)
    ensures n == |FlaggedRows(g, flag)|
    ensures n <= |g|
  {
    if g == [] then
      assert FlaggedRows(g, flag) == {};
      0
    else
      var init := g[..|g| - 1];
      var n := FlagCount(init, flag) + (if flag(g[|g| - 1]) then 1 else 0);
      FlaggedRowsSnoc(g, flag);
      n
  }

  lemma FlaggedRowsSnoc(g: seq<User>, flag: User -> bool)
    requires g != []
    ensures var n := |g| - 1;
      n !in FlaggedRows(g[..n], flag) &&
      FlaggedRows(g, flag) == FlaggedRows(g[..n], flag) + (if flag(g[n]) then {n} else {})
  {
  }

  function EventsSum(g: seq<User>): nat {
    if g == [] then 0 else g[0].totalEvents + EventsSum(g[1..])
  }

  /** The mean number of events per user, 0.0 for no users. */
  function MeanEvents(g: seq<User>): (m: real)
    ensures m * |g| as real == EventsSum(g) as real
    ensures m >= 0.0
    ensures g == [] ==> m == 0.0
  {
    if g == [] then 0.0 else EventsSum(g) as real / |g| as real
  }

  /** `n / d` on a positive denominator, before rounding. */
  function Ratio(n: nat, d: nat): (r: real)
    requires d > 0
    ensures r >= 0.0
    ensures r == 0.0 <==> n == 0
    ensures r <= 1.0 <==> n <= d
    ensures r == 1.0 <==> n == d
  {
    n as real / d as real
  }

  /** The ratio is the quotient: scaled back by the denominator it gives the numerator. */
  lemma RatioScaled(n: nat, d: nat)
    requires d > 0
    ensures Ratio(n, d) * d as real == n as real
  {
  }

  /** Ratios over one denominator add up as their numerators do. */
  lemma RatioAdd(a: nat, b: nat, d: nat)
    requires d > 0
    ensures Ratio(a, d) + Ratio(b, d) == Ratio(a + b, d)
  {
  }

  /** The aggregate row of one source present in the users table: the number of distinct contacts,
      the engaged and retained counts, the mean event count, and the two rates over the volume. */
  function MetricsOf(users: seq<User>, s: string): (m: SourceMetrics)
    requires s in Keys(users, SourceOf)
    ensures m.source == s
    ensures 1 <= m.volume <= CountKey(users, SourceOf, s)
  {
    var g := Group(users, s);
    assert UserKey(g[0]) in Keys(g, UserKey);
    KeysBound(g, UserKey);
    var volume := |Keys(g, UserKey)|;
    var engaged := FlagCount(g, Engaged);
    var retained := FlagCount(g, Retained);
    SourceMetrics(s, volume, engaged, retained, MeanEvents(g), Ratio(engaged, volume), Ratio(retained, volume))
  }

  /** The average and the rates of row `m` over group `g`, scaled back by their denominators, give
      the group's events and the row's engaged and retained counts. */
  predicate ScaledBack(m: SourceMetrics, g: seq<User>) {
    && m.avgEventsPerUser * |g| as real == EventsSum(g) as real
    && m.engagementRate * m.volume as real == m.engagedUsers as real
    && m.retentionRate * m.volume as real == m.retentionUsers as real
  }

  /** A source's row scales back: its average times its row count is the events of its users, and
      each rate times the volume is the number of engaged or retained users. */
  lemma MetricsScaled(users: seq<User>, s: string)
    requires s in Keys(users, SourceOf)
    ensures ScaledBack(MetricsOf(users, s), Group(users, s))
  {
    RowScaled(MetricsOf(users, s), Group(users, s));
  }

  lemma RowScaled(m: SourceMetrics, g: seq<User>)
    requires m.volume > 0 && m.avgEventsPerUser == MeanEvents(g)
    requires m.engagementRate == Ratio(m.engagedUsers, m.volume) && m.retentionRate == Ratio(m.retentionUsers, m.volume)
    ensures ScaledBack(m, g)
  {
    RatioScaled(m.engagedUsers, m.volume);
    RatioScaled(m.retentionUsers, m.volume);
  }

  /** `m` is the aggregate row of one of the sources in `users`. */
  predicate IsAggregateOf(users: seq<User>, m: SourceMetrics) {
    m.source in Keys(users, SourceOf) && m == MetricsOf(users, m.source)
  }

  /** The group-by result before sorting: one row per source, in order of first appearance. */
  function Aggregated(users: seq<User>): (r: seq<SourceMetrics>)
    ensures Keys(r, MetricsSource) == Keys(users, SourceOf)
    ensures Unique(r, MetricsSource)
    ensures forall i :: 0 <= i < |r| ==> IsAggregateOf(users, r[i])
  {
    var d := DedupBy(users, SourceOf);
    var r := seq(|d|, i requires 0 <= i < |d| && SourceOf(d[i]) in Keys(users, SourceOf) => MetricsOf(users, d[i].utmSource));
    KeysAligned(d, SourceOf, r, MetricsSource);
    r
  }

  /** Sources with more distinct contacts come first. */
  predicate ByVolume(r: seq<SourceMetrics>) {
    forall i, j :: 0 <= i < j < |r| ==> r[i].volume >= r[j].volume
  }

  function Insert(m: SourceMetrics, r: seq<SourceMetrics>): (s: seq<SourceMetrics>)
    requires ByVolume(r)
    ensures ByVolume(s)
    ensures multiset(s) == multiset(r) + multiset{m}
  {
    if r == [] then [m]
    else if m.volume >= r[0].volume then [m] + r
    else
      var t := Insert(m, r[1..]);
      assert r == [r[0]] + r[1..];
      InsertBound(m, r[1..], t, r[0].volume);
      ByVolumeCons(r[0], t);
      [r[0]] + t
  }

  lemma ByVolumeCons(h: SourceMetrics, t: seq<SourceMetrics>)
    requires ByVolume(t) && forall x :: x in t ==> x.volume <= h.volume
    ensures ByVolume([h] + t)
  {
    forall i, j | 0 <= i < j < |t| + 1 ensures ([h] + t)[i].volume >= ([h] + t)[j].volume {
      assert ([h] + t)[j] == t[j - 1];
      if i > 0 { assert ([h] + t)[i] == t[i - 1]; }
    }
  }

  /** Rows taken from `rest` and `m` stay within a bound that `rest` and `m` keep. */
  lemma InsertBound(m: SourceMetrics, rest: seq<SourceMetrics>, t: seq<SourceMetrics>, v: nat)
    requires multiset(t) == multiset(rest) + multiset{m}
    requires m.volume <= v && forall x :: x in rest ==> x.volume <= v
    ensures forall x :: x in t ==> x.volume <= v
  {
    forall x | x in t ensures x.volume <= v {
      assert x in multiset(t);
      assert x == m || x in multiset(rest);
    }
  }

  /** `sort_values("acquisition_volume", ascending=False)`: a reordering by non-increasing volume.
      Ties come out in some order; the source's sort does not promise one either. */
  function SortByVolume(r: seq<SourceMetrics>): (s: seq<SourceMetrics>)
    ensures ByVolume(s)
    ensures multiset(s) == multiset(r)
  {
    if r == [] then []
    else
      assert r == [r[0]] + r[1..];
      Insert(r[0], SortByVolume(r[1..]))
  }

  /** `metrics_per_utm`: exactly one row per source present in the users table, each that source's
      aggregate, with the larger sources first. */
  function MetricsPerUtm(users: seq<User>): (r: seq<SourceMetrics>)
    ensures ByVolume(r)
    ensures Keys(r, MetricsSource) == Keys(users, SourceOf)
    ensures Unique(r, MetricsSource)
    ensures forall i :: 0 <= i < |r| ==> IsAggregateOf(users, r[i])
  {
    var a := Aggregated(users);
    var r := SortByVolume(a);
    PermutationKeys(a, r, MetricsSource);
    PermutationUnique(a, r, MetricsSource);
    PermutedAggregates(users, a, r);
    r
  }

  lemma PermutedAggregates(users: seq<User>, a: seq<SourceMetrics>, r: seq<SourceMetrics>)
    requires multiset(a) == multiset(r)
    requires forall i :: 0 <= i < |a| ==> IsAggregateOf(users, a[i])
    ensures forall i :: 0 <= i < |r| ==> IsAggregateOf(users, r[i])
  {
    forall i | 0 <= i < |r|
      ensures IsAggregateOf(users, r[i])
    {
      assert r[i] in multiset(a);
      var j :| 0 <= j < |a| && a[j] == r[i];
    }
  }

  /** With one users row per contact, the volume is the number of users of the source, the engaged
      and retained counts are the numbers of its users with the flag set, so they never exceed the
      volume, and the two rates are those counts over the volume, so they lie between 0 and 1. */
  lemma RatesBounded(users: seq<User>, s: string)
    requires Unique(users, UserKey) && s in Keys(users, SourceOf)
    ensures var m := MetricsOf(users, s);
      && m.volume == CountKey(users, SourceOf, s)
      && m.engagedUsers == |SourceFlagged(users, s, Engaged)|
      && m.retentionUsers == |SourceFlagged(users, s, Retained)|
      && m.engagedUsers <= m.volume && m.retentionUsers <= m.volume
      && 0.0 <= m.engagementRate <= 1.0
      && 0.0 <= m.retentionRate <= 1.0
  {
    var g := Group(users, s);
    GroupUnique(users, s);
    UniqueKeysCount(g, UserKey);
    GroupFlags(users, s, Engaged);
    GroupFlags(users, s, Retained);
  }

  /** The positions of the users of source `s` with `flag` set. */
  function SourceFlagged(users: seq<User>, s: string, flag: User -> bool): set<nat> {
    set i: nat | i < |users| && users[i].utmSource == s && flag(users[i])
  }

  /** Counting a flag over a source's group counts the users of that source with the flag set. */
  lemma {:induction false} GroupFlags(users: seq<User>, s: string, flag: User -> bool)
    ensures FlagCount(Group(users, s), flag) == |SourceFlagged(users, s, flag)|
  {
    if users == [] {
      assert SourceFlagged(users, s, flag) == {};
    } else {
      var n := |users| - 1;
      var init := users[..n];
      var last := users[n];
      GroupFlags(init, s, flag);
      SourceFlaggedSnoc(users, s, flag);
      if last.utmSource == s {
        assert Group(users, s) == Group(init, s) + [last];
        FlagCountSnoc(Group(init, s), last, flag);
      } else {
        assert Group(users, s) == Group(init, s) + [] == Group(init, s);
        assert SourceFlagged(users, s, flag) == SourceFlagged(init, s, flag);
      }
    }
  }

  lemma FlagCountSnoc(g: seq<User>, u: User, flag: User -> bool)
    ensures FlagCount(g + [u], flag) == FlagCount(g, flag) + (if flag(u) then 1 else 0)
  {
    assert (g + [u])[..|g|] == g;
  }

  lemma SourceFlaggedSnoc(users: seq<User>, s: string, flag: User -> bool)
    requires users != []
    ensures var n := |users| - 1;
      n !in SourceFlagged(users[..n], s, flag) &&
      SourceFlagged(users, s, flag)
        == SourceFlagged(users[..n], s, flag) + (if users[n].utmSource == s && flag(users[n]) then {n} else {})
  {
  }

  /** A group holds rows of the table, of its own source. */
  lemma {:induction false} GroupMembers(users: seq<User>, s: string)
    ensures forall u :: u in Group(users, s) ==> u in users && u.utmSource == s
  {
    if users != [] {
      var init := users[..|users| - 1];
      assert users == init + [users[|users| - 1]];
      GroupMembers(init, s);
    }
  }

  /** A group of a table without repeated contacts has none either. */
  lemma {:induction false} GroupUnique(users: seq<User>, s: string)
    requires Unique(users, UserKey)
    ensures Unique(Group(users, s), UserKey)
  {
    if users != [] {
      var init := users[..|users| - 1];
      var last := users[|users| - 1];
      assert Unique(init, UserKey);
      GroupUnique(init, s);
      GroupMembers(init, s);
      forall u | u in Group(init, s) ensures UserKey(u) != UserKey(last) {
        var i :| 0 <= i < |init| && init[i] == u;
        assert users[i] == u;
      }
    }
  }

  /** The sum of the volume column. */
  function TotalVolume(r: seq<SourceMetrics>): nat {
    if r == [] then 0 else TotalVolume(r[..|r| - 1]) + r[|r| - 1].volume
  }

  lemma {:induction false} TotalVolumeCounts(r: seq<SourceMetrics>, users: seq<User>)
    requires forall i :: 0 <= i < |r| ==> r[i].volume == CountKey(users, SourceOf, r[i].source)
    ensures TotalVolume(r) == SumCounts(r, MetricsSource, users, SourceOf, AnySource)
  {
    if r != [] {
      TotalVolumeCounts(r[..|r| - 1], users);
    }
  }

  /** With one users row per contact, the volumes of all sources add up to the number of contacts:
      every contact is acquired through exactly one source. */
  lemma VolumesSumToContacts(users: seq<User>)
    requires Unique(users, UserKey)
    ensures TotalVolume(MetricsPerUtm(users)) == |Keys(users, UserKey)|
  {
    var r := MetricsPerUtm(users);
    forall i | 0 <= i < |r| ensures r[i].volume == CountKey(users, SourceOf, r[i].source) {
      RatesBounded(users, r[i].source);
    }
    TotalVolumeCounts(r, users);
    SumCountsPartition(r, MetricsSource, users, SourceOf, AnySource);
    CountSelAll(users, SourceOf, AnySource);
    UniqueKeysCount(users, UserKey);
  }

  /** One row of the category mix: a source, an event category, the number of after-acquisition
      events of that pair, the number of after-acquisition events of the source, and their ratio. */
  datatype MixRow = MixRow(source: string, category: string, events: nat, totalEvents: nat, share: real)

  /** A (utm_source, event_category) group key. */
  datatype Pair = Pair(source: string, category: string)

  function PairKey(p: Pair): Pair { p }
  function RowPair(m: MixRow): Pair { Pair(m.source, m.category) }
  function RowSource(m: MixRow): string { m.source }

  /** The selector of the groups of one source. */
  function SourceIs(s: string): Pair -> bool {
    (p: Pair) => p.source == s
  }

  /** `events_after_acq.merge(utm, how="left")` with the missing sources filled with "unknown". */
  function Attributed(ea: seq<EnrichedEvent>, utm: seq<Utm>): (r: seq<(EnrichedEvent, string)>)
    ensures |r| == JoinSize(ea, EnrichedKey, utm, UtmKey) >= |ea|
    ensures forall k :: 0 <= k < |r| ==> r[k].0 in ea
    ensures forall k :: 0 <= k < |r| && EnrichedKey(r[k].0) in Keys(utm, UtmKey) ==>
      PayloadOf(utm, UtmKey, UtmSource, EnrichedKey(r[k].0), r[k].1)
    ensures forall k :: 0 <= k < |r| && EnrichedKey(r[k].0) !in Keys(utm, UtmKey) ==> r[k].1 == Unknown
  {
    var j := LeftJoin(ea, EnrichedKey, utm, UtmKey, UtmSource);
    seq(|j|, k requires 0 <= k < |j| => (j[k].0, if j[k].1.Some? then j[k].1.value else Unknown))
  }

  /** With a deduplicated UTM table every event appears once, in order, with its contact's source. */
  lemma AttributedOneToOne(ea: seq<EnrichedEvent>, utm: seq<Utm>)
    requires Unique(utm, UtmKey)
    ensures |Attributed(ea, utm)| == |ea|
    ensures forall k :: 0 <= k < |ea| ==> Attributed(ea, utm)[k] == (ea[k], ResolveSource(utm, ea[k].event.contactId))
  {
    LeftJoinUnique(ea, EnrichedKey, utm, UtmKey, UtmSource);
  }

  /** The rows that reach the group-by: after acquisition, and with a category (a missing category
      is a missing group key, which the group-by drops). */
  predicate Qualifies(t: (EnrichedEvent, string)) {
    t.0.isAfterAcq && t.0.event.category.Some?
  }

  /** The group key of a qualifying row. */
  function PairOf(t: (EnrichedEvent, string)): Pair
    requires Qualifies(t)
  {
    Pair(t.1, t.0.event.category.value)
  }

  /** The group keys of the qualifying rows, one per row, in row order. */
  function Counted(tagged: seq<(EnrichedEvent, string)>): (ps: seq<Pair>)
    ensures |ps| == |QualifyingRows(tagged)|
    ensures |ps| <= |tagged|
    ensures forall k :: 0 <= k < |ps| ==> PairRows(tagged, ps[k]) != {}
  {
    if tagged == [] then
      assert QualifyingRows(tagged) == {};
      []
    else
      var n := |tagged| - 1;
      var last := tagged[n];
      var init := Counted(tagged[..n]);
      QualifyingRowsSnoc(tagged);
      assert forall k :: 0 <= k < |init| ==> PairRows(tagged, init[k]) != {} by {
        forall k | 0 <= k < |init| ensures PairRows(tagged, init[k]) != {} {
          PairRowsSnoc(tagged, init[k]);
        }
      }
      if Qualifies(last) then
        assert n in PairRows(tagged, PairOf(last));
        init + [PairOf(last)]
      else
        init + []
  }

  /** The positions of the qualifying rows. */
  function QualifyingRows(tagged: seq<(EnrichedEvent, string)>): set<nat> {
    set k: nat | k < |tagged| && Qualifies(tagged[k])
  }

  lemma QualifyingRowsSnoc(tagged: seq<(EnrichedEvent, string)>)
    requires tagged != []
    ensures var n := |tagged| - 1;
      n !in QualifyingRows(tagged[..n]) &&
      QualifyingRows(tagged) == QualifyingRows(tagged[..n]) + (if Qualifies(tagged[n]) then {n} else {})
  {
  }

  /** The positions of the qualifying rows whose key is `p`. */
  function PairRows(tagged: seq<(EnrichedEvent, string)>, p: Pair): set<nat> {
    set k: nat | k < |tagged| && Qualifies(tagged[k]) && PairOf(tagged[k]) == p
  }

  /** The positions of the qualifying rows of source `s`. */
  function SourceRows(tagged: seq<(EnrichedEvent, string)>, s: string): set<nat> {
    set k: nat | k < |tagged| && Qualifies(tagged[k]) && tagged[k].1 == s
  }

  lemma PairRowsSnoc(tagged: seq<(EnrichedEvent, string)>, p: Pair)
    requires tagged != []
    ensures var n := |tagged| - 1;
      n !in PairRows(tagged[..n], p) &&
      PairRows(tagged, p) == PairRows(tagged[..n], p) + (if Qualifies(tagged[n]) && PairOf(tagged[n]) == p then {n} else {})
  {
  }

  lemma SourceRowsSnoc(tagged: seq<(EnrichedEvent, string)>, s: string)
    requires tagged != []
    ensures var n := |tagged| - 1;
      n !in SourceRows(tagged[..n], s) &&
      SourceRows(tagged, s) == SourceRows(tagged[..n], s) + (if Qualifies(tagged[n]) && tagged[n].1 == s then {n} else {})
  {
  }

  /** A group key occurs among the counted keys exactly once for every qualifying row that has it. */
  lemma {:induction false} CountedPairs(tagged: seq<(EnrichedEvent, string)>, p: Pair)
    ensures CountKey(Counted(tagged), PairKey, p) == |PairRows(tagged, p)|
  {
    if tagged == [] {
      assert PairRows(tagged, p) == {};
    } else {
      var n := |tagged| - 1;
      var init := tagged[..n];
      CountedPairs(init, p);
      PairRowsSnoc(tagged, p);
      if Qualifies(tagged[n]) {
        CountKeySnoc(Counted(init), PairOf(tagged[n]), PairKey, p);
      } else {
        assert Counted(tagged) == Counted(init) + [] == Counted(init);
        assert PairRows(tagged, p) == PairRows(init, p);
      }
    }
  }

  /** Every qualifying row of a source counts once towards the source's selected keys. */
  lemma {:induction false} CountedSources(tagged: seq<(EnrichedEvent, string)>, s: string)
    ensures CountSel(Counted(tagged), PairKey, SourceIs(s)) == |SourceRows(tagged, s)|
  {
    if tagged == [] {
      assert SourceRows(tagged, s) == {};
    } else {
      var n := |tagged| - 1;
      var init := tagged[..n];
      CountedSources(init, s);
      SourceRowsSnoc(tagged, s);
      if Qualifies(tagged[n]) {
        CountSelSnoc(Counted(init), PairOf(tagged[n]), PairKey, SourceIs(s));
      } else {
        assert Counted(tagged) == Counted(init) + [] == Counted(init);
        assert SourceRows(tagged, s) == SourceRows(init, s);
      }
    }
  }

  /** The mix row of group `p`: its size, the sum of the group sizes of its source (the merge of
      the per-source totals), and the share of the one in the other. */
  function MixRowOf(groups: seq<Pair>, ps: seq<Pair>, p: Pair): (m: MixRow)
    requires Unique(groups, PairKey) && Keys(ps, PairKey) <= Keys(groups, PairKey) && p in Keys(ps, PairKey)
    ensures RowPair(m) == p
    ensures m.events == CountKey(ps, PairKey, p)
    ensures m.totalEvents == CountSel(ps, PairKey, SourceIs(p.source))
    ensures 1 <= m.events <= m.totalEvents
    ensures 0.0 < m.share <= 1.0
  {
    var events := CountKey(ps, PairKey, p);
    var total := SumCounts(groups, PairKey, ps, PairKey, SourceIs(p.source));
    SumCountsPartition(groups, PairKey, ps, PairKey, SourceIs(p.source));
    CountKeyPositive(ps, PairKey, p);
    CountKeyAtMostSel(ps, PairKey, SourceIs(p.source), p);
    MixRow(p.source, p.category, events, total, Ratio(events, total))
  }

  /** A correct row of the mix over the attributed events: the number of qualifying events of its
      pair, the number of qualifying events of its source, and the share of the one in the other. */
  predicate IsMixRow(tagged: seq<(EnrichedEvent, string)>, m: MixRow) {
    && m.events == |PairRows(tagged, RowPair(m))|
    && m.totalEvents == |SourceRows(tagged, m.source)|
    && 1 <= m.events <= m.totalEvents
    && m.share == Ratio(m.events, m.totalEvents)
  }

  /** `event_category_mix`: one row per (source, category) pair that some qualifying event has, in
      order of first appearance, each with its count, its source's total and its share. */
  function CategoryMix(ea: seq<EnrichedEvent>, utm: seq<Utm>): (r: seq<MixRow>)
    ensures Unique(r, RowPair)
    ensures Keys(r, RowPair) == Keys(Counted(Attributed(ea, utm)), PairKey)
    ensures forall i :: 0 <= i < |r| ==> IsMixRow(Attributed(ea, utm), r[i])
  {
    var tagged := Attributed(ea, utm);
    var ps := Counted(tagged);
    var groups := DedupBy(ps, PairKey);
    var r := seq(|groups|, i requires 0 <= i < |groups| => MixRowOf(groups, ps, groups[i]));
    KeysAligned(groups, PairKey, r, RowPair);
    forall i | 0 <= i < |r| ensures IsMixRow(tagged, r[i]) {
      CountedPairs(tagged, groups[i]);
      CountedSources(tagged, groups[i].source);
    }
    r
  }

  /** The sum of the share column over the rows of source `s`. */
  function ShareSum(r: seq<MixRow>, s: string): real {
    if r == [] then 0.0
    else ShareSum(r[..|r| - 1], s) + (if r[|r| - 1].source == s then r[|r| - 1].share else 0.0)
  }

  /** The sum of the events column over the rows of source `s`. */
  function SourceEvents(r: seq<MixRow>, s: string): nat {
    if r == [] then 0
    else SourceEvents(r[..|r| - 1], s) + (if r[|r| - 1].source == s then r[|r| - 1].events else 0)
  }

  /** With every row of source `s` holding its events over one total, the shares of `s` add up to
      the events of `s` over that total. */
  lemma {:induction false} ShareSumRatio(r: seq<MixRow>, s: string, total: nat)
    requires total > 0
    requires forall i :: 0 <= i < |r| && r[i].source == s ==> r[i].share == Ratio(r[i].events, total)
    ensures ShareSum(r, s) == Ratio(SourceEvents(r, s), total)
  {
    if r != [] {
      var init := r[..|r| - 1];
      var last := r[|r| - 1];
      ShareSumRatio(init, s, total);
      if last.source == s {
        RatioAdd(SourceEvents(init, s), last.events, total);
      }
    }
  }

  lemma {:induction false} SourceEventsCounts(r: seq<MixRow>, ps: seq<Pair>, s: string)
    requires forall i :: 0 <= i < |r| ==> r[i].events == CountKey(ps, PairKey, RowPair(r[i]))
    ensures SourceEvents(r, s) == SumCounts(r, RowPair, ps, PairKey, SourceIs(s))
  {
    if r != [] {
      SourceEventsCounts(r[..|r| - 1], ps, s);
    }
  }

  /** Within each source present in the mix the shares add up to one: the events of its pairs add
      up to its total. */
  lemma SharesSumToOne(ea: seq<EnrichedEvent>, utm: seq<Utm>, s: string)
    requires s in Keys(CategoryMix(ea, utm), RowSource)
    ensures SourceEvents(CategoryMix(ea, utm), s) == |SourceRows(Attributed(ea, utm), s)|
    ensures ShareSum(CategoryMix(ea, utm), s) == 1.0
  {
    var r := CategoryMix(ea, utm);
    var tagged := Attributed(ea, utm);
    var ps := Counted(tagged);
    CountedSources(tagged, s);
    var total := |SourceRows(tagged, s)|;
    var k :| 0 <= k < |r| && r[k].source == s;
    assert total >= 1 by {
      assert IsMixRow(tagged, r[k]);
    }
    forall i | 0 <= i < |r|
      ensures r[i].events == CountKey(ps, PairKey, RowPair(r[i]))
      ensures r[i].source == s ==> r[i].share == Ratio(r[i].events, total)
    {
      assert IsMixRow(tagged, r[i]);
      CountedPairs(tagged, RowPair(r[i]));
    }
    SourceEventsCounts(r, ps, s);
    SumCountsPartition(r, RowPair, ps, PairKey, SourceIs(s));
    ShareSumRatio(r, s, total);
  }

  /** End to end: with the contacts, UTM sources and events built from one cleaned table, the users
      table has one row per Contact ID of the table, and the acquisition volumes of the sources add
      up to the number of distinct Contact IDs. */
  lemma VolumesCoverContacts(rows: seq<RawRow>)
    ensures var contacts := BuildContacts(rows);
      var users := Users(JoinUtm(contacts, ExtractUtm(rows)), Enrich(BuildEvents(rows), contacts));
      && Unique(users, UserKey)
      && Keys(users, UserKey) == Keys(rows, RowKey)
      && TotalVolume(MetricsPerUtm(users)) == |Keys(rows, RowKey)|
  {
    var contacts := BuildContacts(rows);
    var ea := Enrich(BuildEvents(rows), contacts);
    UsersPerContact(contacts, ExtractUtm(rows), ea);
    VolumesSumToContacts(Users(JoinUtm(contacts, ExtractUtm(rows)), ea));
  }

  /** Against a deduplicated UTM table the users table has one row per contact. */
  lemma UsersPerContact(contacts: seq<Contact>, utm: seq<Utm>, ea: seq<EnrichedEvent>)
    requires Unique(contacts, ContactKey) && Unique(utm, UtmKey)
    ensures var users := Users(JoinUtm(contacts, utm), ea);
      Unique(users, UserKey) && Keys(users, UserKey) == Keys(contacts, ContactKey)
  {
    JoinUtmOneToOne(contacts, utm);
    KeysAligned(contacts, ContactKey, Users(JoinUtm(contacts, utm), ea), UserKey);
  }
}
