/** The scrape job: the IST day window, promotion of today's scheduled
    hearings to in-progress, the display-board cache upsert and the job
    handler that ties them to a scrape. */
module Processor {

  import opened Wrappers
  import opened JsString
  import opened Entries
  import opened BrowserPool
  import opened AiParser
  import Scrapers

  // ---------------------------------------------------------------------
  // The IST calendar day
  // ---------------------------------------------------------------------

  /** India Standard Time is UTC+5:30. */
  const IstOffsetMs: int := 330 * 60 * 1000
  const DayMs: int := 24 * 60 * 60 * 1000

  /** A half-open interval `[start, end)` of UTC milliseconds. */
  datatype DayWindow = DayWindow(start: int, end: int)

  predicate InWindow(t: int, w: DayWindow)
  {
    w.start <= t < w.end
  }

  /** The number of the IST calendar day an instant falls on. */
  function IstDay(nowMs: int): int
  {
    (nowMs + IstOffsetMs) / DayMs
  }

  /** `getTodayRangeIST`, with the clock reading as a parameter: from IST
      midnight of the current IST day to the next one, in UTC. */
  function TodayRangeIST(nowMs: int): (w: DayWindow)
    ensures w.end - w.start == DayMs
    ensures w.start <= nowMs < w.end
    ensures (w.start + IstOffsetMs) % DayMs == 0
  {
    var startUtc := IstDay(nowMs) * DayMs - IstOffsetMs;
    DayWindow(startUtc, startUtc + DayMs)
  }

  /** Division by the day length is determined by bounds. */
  lemma DayOfBounds(x: int, q: int)
    requires q * DayMs <= x < q * DayMs + DayMs
    ensures x / DayMs == q
  {
    var r := x / DayMs;
    assert x == r * DayMs + x % DayMs;
    var d := r - q;
    assert d * DayMs == r * DayMs - q * DayMs;
    assert -DayMs < d * DayMs < DayMs;
    SmallMultiple(d);
  }

  /** The only multiple of the day length strictly between minus one day and one day is zero. */
  lemma SmallMultiple(d: int)
    requires -DayMs < d * DayMs < DayMs
    ensures d == 0
  {
  }

  /** Two instants get the same window exactly when they fall on the same IST
      calendar day. */
  lemma SameWindowIffSameIstDay(a: int, b: int)
    ensures TodayRangeIST(a) == TodayRangeIST(b) <==> IstDay(a) == IstDay(b)
  {
    if TodayRangeIST(a) == TodayRangeIST(b) {
      assert IstDay(a) * DayMs == IstDay(b) * DayMs;
    }
  }

  /** Every instant of a window computes that same window. */
  lemma WindowOfInstantInWindow(a: int, b: int)
    requires InWindow(b, TodayRangeIST(a))
    ensures TodayRangeIST(b) == TodayRangeIST(a)
  {
    DayOfBounds(b + IstOffsetMs, IstDay(a));
  }

  /** Midnight IST of 15 January 2024 in UTC milliseconds (18:30 UTC, 14 January). */
  const SampleIstMidnight: int := 19737 * DayMs - IstOffsetMs

  /** At 23:59 IST the window still holds a hearing dated 00:30 IST of the
      same day, although that instant lies on the previous UTC calendar day. */
  lemma LateEveningWindowHoldsEarlyMorning()
    ensures var lateEvening := SampleIstMidnight + 86_340_000;
      var earlyMorning := SampleIstMidnight + 1_800_000;
      earlyMorning / DayMs == 19736 && lateEvening / DayMs == 19737
      && InWindow(earlyMorning, TodayRangeIST(lateEvening))
      && TodayRangeIST(earlyMorning) == TodayRangeIST(lateEvening)
  {
    DayOfBounds(SampleIstMidnight + 86_340_000 + IstOffsetMs, 19737);
    DayOfBounds(SampleIstMidnight + 1_800_000 + IstOffsetMs, 19737);
    DayOfBounds(SampleIstMidnight + 1_800_000, 19736);
    DayOfBounds(SampleIstMidnight + 86_340_000, 19737);
  }

  // ---------------------------------------------------------------------
  // Scheduled hearings and their promotion
  // ---------------------------------------------------------------------

  datatype HearingStatus = Scheduled | HearingInProgress | OtherStatus(name: string)

  /** A hearing row together with the court id of its case. A row's position
      in the hearing table stands for its primary key. */
  datatype Hearing = Hearing(
    caseCourtId: int,
    courtNumber: Option<string>,
    courtItemNumber: Option<string>,
    hearingDate: int,
    status: HearingStatus)

  /** The `findMany` filter for one entry: an entry with an item number, the
      case's court, the entry's court room and item, a date inside today's
      window and the SCHEDULED status. */
  predicate Matches(h: Hearing, courtId: int, e: DisplayBoardEntry, w: DayWindow)
  {
    Truthy(e.itemNumber)
    && h.caseCourtId == courtId
    && h.courtNumber == Some(e.courtNumber)
    && h.courtItemNumber == e.itemNumber
    && InWindow(h.hearingDate, w)
    && h.status == Scheduled
  }

  function Promote(h: Hearing, courtId: int, e: DisplayBoardEntry, w: DayWindow): Hearing
  {
    if Matches(h, courtId, e, w) then h.(status := HearingInProgress) else h
  }

  /** The hearing table after the batched update for one entry. */
  function PromoteEntry(hs: seq<Hearing>, courtId: int, e: DisplayBoardEntry, w: DayWindow): (r: seq<Hearing>)
    ensures |r| == |hs|
  {
    seq(|hs|, i requires 0 <= i < |hs| => Promote(hs[i], courtId, e, w))
  }

  /** The hearing table after the updates for every entry, in order. */
  function PromoteAll(hs: seq<Hearing>, courtId: int, entries: seq<DisplayBoardEntry>, w: DayWindow): (r: seq<Hearing>)
    ensures |r| == |hs|
  {
    if entries == [] then hs
    else PromoteEntry(PromoteAll(hs, courtId, entries[..|entries| - 1], w), courtId, entries[|entries| - 1], w)
  }

  /** How many of the first `n` hearings the filter for `e` selects. */
  function MatchCount(hs: seq<Hearing>, courtId: int, e: DisplayBoardEntry, w: DayWindow, n: nat): nat
    requires n <= |hs|
  {
    if n == 0 then 0
    else MatchCount(hs, courtId, e, w, n - 1) + (if Matches(hs[n - 1], courtId, e, w) then 1 else 0)
  }

  /** The sum of the match counts, entry by entry, each on the table the
      previous entries left behind: what the loop adds up. */
  function TotalPromoted(hs: seq<Hearing>, courtId: int, entries: seq<DisplayBoardEntry>, w: DayWindow): nat
  {
    if entries == [] then 0
    else
      var before := PromoteAll(hs, courtId, entries[..|entries| - 1], w);
      TotalPromoted(hs, courtId, entries[..|entries| - 1], w)
      + MatchCount(before, courtId, entries[|entries| - 1], w, |before|)
  }

  /** How many of the first `n` hearings went from SCHEDULED to IN_PROGRESS. */
  function PromotedCount(before: seq<Hearing>, after: seq<Hearing>, n: nat): nat
    requires n <= |before| == |after|
  {
    if n == 0 then 0
    else
      PromotedCount(before, after, n - 1)
      + (if before[n - 1].status == Scheduled && after[n - 1].status == HearingInProgress then 1 else 0)
  }

  /** Some entry's filter selects the hearing. */
  predicate AnyMatch(h: Hearing, courtId: int, entries: seq<DisplayBoardEntry>, w: DayWindow)
  {
    exists e :: e in entries && Matches(h, courtId, e, w)
  }

  /** `after` differs from `before` only in hearings promoted from SCHEDULED, and
      only in their status. */
  predicate Evolved(before: seq<Hearing>, after: seq<Hearing>)
  {
    |before| == |after|
    && forall i :: 0 <= i < |before| ==>
         after[i] == before[i]
         || (before[i].status == Scheduled && after[i] == before[i].(status := HearingInProgress))
  }

  /** Each hearing ends up promoted exactly when some entry's filter selects it;
      nothing else in the table changes. */
  lemma {:induction false} PromoteAllAt(hs: seq<Hearing>, courtId: int, entries: seq<DisplayBoardEntry>, w: DayWindow, i: int)
    requires 0 <= i < |hs|
    ensures PromoteAll(hs, courtId, entries, w)[i]
      == if AnyMatch(hs[i], courtId, entries, w) then hs[i].(status := HearingInProgress) else hs[i]
    decreases |entries|
  {
    if entries != [] {
      var prefix := entries[..|entries| - 1];
      var last := entries[|entries| - 1];
      PromoteAllAt(hs, courtId, prefix, w, i);
      assert entries == prefix + [last];
      if AnyMatch(hs[i], courtId, prefix, w) {
        var e :| e in prefix && Matches(hs[i], courtId, e, w);
        assert e in entries;
      } else if Matches(hs[i], courtId, last, w) {
        assert last in entries;
      } else {
        forall e | e in entries
          ensures !Matches(hs[i], courtId, e, w)
        {
          assert e in prefix || e == last;
        }
      }
    }
  }

  lemma PromoteAllEvolved(hs: seq<Hearing>, courtId: int, entries: seq<DisplayBoardEntry>, w: DayWindow)
    ensures Evolved(hs, PromoteAll(hs, courtId, entries, w))
  {
    forall i | 0 <= i < |hs|
      ensures var r := PromoteAll(hs, courtId, entries, w);
        r[i] == hs[i] || (hs[i].status == Scheduled && r[i] == hs[i].(status := HearingInProgress))
    {
      PromoteAllAt(hs, courtId, entries, w, i);
    }
  }

  /** An entry without an item number, or a "" one, is never used to match. */
  lemma UnusableEntryChangesNothing(hs: seq<Hearing>, courtId: int, e: DisplayBoardEntry, w: DayWindow)
    requires !Truthy(e.itemNumber)
    ensures PromoteEntry(hs, courtId, e, w) == hs
    ensures MatchCount(hs, courtId, e, w, |hs|) == 0
  {
    NoMatchCountsZero(hs, courtId, e, w, |hs|);
  }

  lemma {:induction false} NoMatchCountsZero(hs: seq<Hearing>, courtId: int, e: DisplayBoardEntry, w: DayWindow, n: nat)
    requires n <= |hs|
    requires forall i :: 0 <= i < n ==> !Matches(hs[i], courtId, e, w)
    ensures MatchCount(hs, courtId, e, w, n) == 0
  {
    if n > 0 {
      NoMatchCountsZero(hs, courtId, e, w, n - 1);
    }
  }

  /** The count an entry adds is the count of hearings it promotes. */
  lemma {:induction false} PromotedCountStep(hs: seq<Hearing>, p: seq<Hearing>, courtId: int, e: DisplayBoardEntry, w: DayWindow, n: nat)
    requires Evolved(hs, p)
    requires n <= |hs|
    ensures PromotedCount(hs, PromoteEntry(p, courtId, e, w), n)
      == PromotedCount(hs, p, n) + MatchCount(p, courtId, e, w, n)
  {
    if n > 0 {
      PromotedCountStep(hs, p, courtId, e, w, n - 1);
    }
  }

  /** The loop's running total is the number of hearings moved from SCHEDULED
      to IN_PROGRESS: a hearing selected by several entries counts once. */
  lemma {:induction false} TotalIsPromotedCount(hs: seq<Hearing>, courtId: int, entries: seq<DisplayBoardEntry>, w: DayWindow)
    ensures TotalPromoted(hs, courtId, entries, w)
      == PromotedCount(hs, PromoteAll(hs, courtId, entries, w), |hs|)
    decreases |entries|
  {
    if entries == [] {
      NothingPromotedYet(hs, |hs|);
    } else {
      var prefix := entries[..|entries| - 1];
      TotalIsPromotedCount(hs, courtId, prefix, w);
      PromoteAllEvolved(hs, courtId, prefix, w);
      PromotedCountStep(hs, PromoteAll(hs, courtId, prefix, w), courtId, entries[|entries| - 1], w, |hs|);
    }
  }

  lemma {:induction false} NothingPromotedYet(hs: seq<Hearing>, n: nat)
    requires n <= |hs|
    ensures PromotedCount(hs, hs, n) == 0
  {
    if n > 0 {
      NothingPromotedYet(hs, n - 1);
    }
  }

  /** Running the reconciliation again on its own output changes nothing. */
  lemma PromoteAllIdempotent(hs: seq<Hearing>, courtId: int, entries: seq<DisplayBoardEntry>, w: DayWindow)
    ensures var once := PromoteAll(hs, courtId, entries, w);
      PromoteAll(once, courtId, entries, w) == once
  {
    var once := PromoteAll(hs, courtId, entries, w);
    var twice := PromoteAll(once, courtId, entries, w);
    forall i | 0 <= i < |hs|
      ensures twice[i] == once[i]
    {
      PromoteAllAt(hs, courtId, entries, w, i);
      PromoteAllAt(once, courtId, entries, w, i);
    }
  }

  /** An immediate second run promotes nothing and returns 0. */
  lemma SecondRunCountsZero(hs: seq<Hearing>, courtId: int, entries: seq<DisplayBoardEntry>, w: DayWindow)
    ensures var once := PromoteAll(hs, courtId, entries, w);
      TotalPromoted(once, courtId, entries, w) == 0
  {
    var once := PromoteAll(hs, courtId, entries, w);
    TotalIsPromotedCount(once, courtId, entries, w);
    PromoteAllIdempotent(hs, courtId, entries, w);
    NothingPromotedYet(once, |once|);
  }

  /** A repeated entry adds nothing to the total. */
  lemma DuplicateEntryCountsNothing(hs: seq<Hearing>, courtId: int, entries: seq<DisplayBoardEntry>, e: DisplayBoardEntry, w: DayWindow)
    requires e in entries
    ensures TotalPromoted(hs, courtId, entries + [e], w) == TotalPromoted(hs, courtId, entries, w)
  {
    var all := entries + [e];
    assert all[..|all| - 1] == entries;
    var p := PromoteAll(hs, courtId, entries, w);
    forall i | 0 <= i < |p|
      ensures !Matches(p[i], courtId, e, w)
    {
      PromoteAllAt(hs, courtId, entries, w, i);
    }
    NoMatchCountsZero(p, courtId, e, w, |p|);
  }

  /** Courts of the scenario below: court 10, room 3, item 7 being heard. */
  lemma ScheduledHearingIsPromoted()
    ensures var w := TodayRangeIST(SampleIstMidnight + 36_000_000);
      var e := DisplayBoardEntry("3", Some("7"), None, None, None, Some(InProgress));
      var h := Hearing(10, Some("3"), Some("7"), SampleIstMidnight + 3_600_000, Scheduled);
      PromoteAll([h], 10, [e], w) == [h.(status := HearingInProgress)]
      && TotalPromoted([h], 10, [e], w) == 1
  {
    var w := TodayRangeIST(SampleIstMidnight + 36_000_000);
    DayOfBounds(SampleIstMidnight + 36_000_000 + IstOffsetMs, 19737);
    var e := DisplayBoardEntry("3", Some("7"), None, None, None, Some(InProgress));
    var h := Hearing(10, Some("3"), Some("7"), SampleIstMidnight + 3_600_000, Scheduled);
    assert [e][..0] == [];
    assert Matches(h, 10, e, w);
    assert PromoteEntry([h], 10, e, w) == [h.(status := HearingInProgress)];
    assert PromoteAll([h], 10, [], w) == [h];
    assert MatchCount([h], 10, e, w, 1) == 1;
  }

  // ---------------------------------------------------------------------
  // The display-board cache
  // ---------------------------------------------------------------------

  /** The cache's unique key `(courtId, courtNumber)`. */
  datatype CacheKey = CacheKey(courtId: int, courtNumber: string)

  datatype CacheRow = CacheRow(
    itemNumber: Option<string>,
    caseNumber: Option<string>,
    caseTitle: Option<string>,
    judgeName: Option<string>,
    status: Option<string>,
    lastUpdated: int)

  /** The row an entry is written as, created or updated alike. */
  function RowOf(e: DisplayBoardEntry, nowMs: int): CacheRow
  {
    CacheRow(e.itemNumber, e.caseNumber, e.caseTitle, e.judgeName, e.status, nowMs)
  }

  /** The cache after upserting the entries one after another. */
  function UpsertAll(cache: map<CacheKey, CacheRow>, courtId: int, entries: seq<DisplayBoardEntry>, nowMs: int): map<CacheKey, CacheRow>
  {
    if entries == [] then cache
    else
      var e := entries[|entries| - 1];
      UpsertAll(cache, courtId, entries[..|entries| - 1], nowMs)[CacheKey(courtId, e.courtNumber) := RowOf(e, nowMs)]
  }

  /** Entry `i` has the room and no later entry has it. */
  predicate LastAt(entries: seq<DisplayBoardEntry>, courtNumber: string, i: int)
  {
    0 <= i < |entries| && entries[i].courtNumber == courtNumber
    && forall j :: i < j < |entries| ==> entries[j].courtNumber != courtNumber
  }

  lemma LastAtExtend(entries: seq<DisplayBoardEntry>, courtNumber: string, i: int)
    requires entries != [] && entries[|entries| - 1].courtNumber != courtNumber
    requires LastAt(entries[..|entries| - 1], courtNumber, i)
    ensures LastAt(entries, courtNumber, i)
  {
  }

  /** The last entry for a court room, if any. */
  function LastWith(entries: seq<DisplayBoardEntry>, courtNumber: string): (r: Option<DisplayBoardEntry>)
    ensures r.Some? <==> exists i :: 0 <= i < |entries| && entries[i].courtNumber == courtNumber
    ensures r.Some? ==> r.value in entries && r.value.courtNumber == courtNumber
    ensures r.Some? ==> exists i :: LastAt(entries, courtNumber, i) && entries[i] == r.value
  {
    if entries == [] then None
    else if entries[|entries| - 1].courtNumber == courtNumber then
      assert LastAt(entries, courtNumber, |entries| - 1);
      Some(entries[|entries| - 1])
    else
      var front := entries[..|entries| - 1];
      var r := LastWith(front, courtNumber);
      assert forall i :: 0 <= i < |front| ==> front[i] == entries[i];
      assert r.Some? ==> r.value in entries;
      assert r.Some? ==> exists i :: LastAt(entries, courtNumber, i) && entries[i] == r.value by {
        if r.Some? {
          var i :| LastAt(front, courtNumber, i) && front[i] == r.value;
          LastAtExtend(entries, courtNumber, i);
        }
      }
      r
  }

  /** Each cache row after the upserts: the row of the last entry for that room
      of this court; every other court's rows as they were. */
  lemma {:induction false} UpsertAllAt(cache: map<CacheKey, CacheRow>, courtId: int, entries: seq<DisplayBoardEntry>, nowMs: int, k: CacheKey)
    ensures var last := if k.courtId == courtId then LastWith(entries, k.courtNumber) else None;
      var after := UpsertAll(cache, courtId, entries, nowMs);
      (k in after <==> k in cache || last.Some?)
      && (last.Some? ==> after[k] == RowOf(last.value, nowMs))
      && (last.None? && k in cache ==> after[k] == cache[k])
    decreases |entries|
  {
    if entries != [] {
      UpsertAllAt(cache, courtId, entries[..|entries| - 1], nowMs, k);
    }
  }

  /** An entry whose court room appears again later leaves no trace: the later
      entry overwrites it. */
  lemma LaterEntryOverwrites(cache: map<CacheKey, CacheRow>, courtId: int, a: seq<DisplayBoardEntry>, x: DisplayBoardEntry, b: seq<DisplayBoardEntry>, nowMs: int)
    requires exists i :: 0 <= i < |b| && b[i].courtNumber == x.courtNumber
    ensures UpsertAll(cache, courtId, a + [x] + b, nowMs) == UpsertAll(cache, courtId, a + b, nowMs)
  {
    var m1 := UpsertAll(cache, courtId, a + [x] + b, nowMs);
    var m2 := UpsertAll(cache, courtId, a + b, nowMs);
    forall k
      ensures (k in m1 <==> k in m2) && (k in m1 ==> m1[k] == m2[k])
    {
      UpsertAllAt(cache, courtId, a + [x] + b, nowMs, k);
      UpsertAllAt(cache, courtId, a + b, nowMs, k);
      if k.courtId == courtId {
        LastWithSuffix(a + [x], b, k.courtNumber);
        LastWithSuffix(a, b, k.courtNumber);
        if x.courtNumber != k.courtNumber {
          LastWithSkips(a, x, k.courtNumber);
        }
      }
    }
  }

  /** A later occurrence decides `LastWith`. */
  lemma {:induction false} LastWithSuffix(a: seq<DisplayBoardEntry>, b: seq<DisplayBoardEntry>, courtNumber: string)
    ensures LastWith(a + b, courtNumber) == if LastWith(b, courtNumber).Some? then LastWith(b, courtNumber) else LastWith(a, courtNumber)
    decreases |b|
  {
    if b == [] {
      assert a + b == a;
    } else {
      var b' := b[..|b| - 1];
      assert (a + b)[..|a + b| - 1] == a + b';
      LastWithSuffix(a, b', courtNumber);
    }
  }

  lemma LastWithSkips(a: seq<DisplayBoardEntry>, x: DisplayBoardEntry, courtNumber: string)
    requires x.courtNumber != courtNumber
    ensures LastWith(a + [x], courtNumber) == LastWith(a, courtNumber)
  {
    assert (a + [x])[..|a|] == a;
  }

  /** Upserting the same entries again leaves the cache as it is. */
  lemma UpsertAllIdempotent(cache: map<CacheKey, CacheRow>, courtId: int, entries: seq<DisplayBoardEntry>, nowMs: int)
    ensures var once := UpsertAll(cache, courtId, entries, nowMs);
      UpsertAll(once, courtId, entries, nowMs) == once
  {
    var once := UpsertAll(cache, courtId, entries, nowMs);
    var twice := UpsertAll(once, courtId, entries, nowMs);
    forall k
      ensures (k in twice <==> k in once) && (k in twice ==> twice[k] == once[k])
    {
      UpsertAllAt(cache, courtId, entries, nowMs, k);
      UpsertAllAt(once, courtId, entries, nowMs, k);
    }
  }

  // ---------------------------------------------------------------------
  // The court id
  // ---------------------------------------------------------------------

  /** `typeof id === 'string' ? parseInt(id, 10) : id`, with NaN as `None`. */
  function NumericCourtId(id: CourtId): (r: Option<int>)
    ensures id.NumericId? ==> r == Some(id.number)
    ensures id.TextId? ==> r == ParseInt(id.text)
  {
    match id
    case NumericId(n) => Some(n)
    case TextId(t) => ParseInt(t)
  }

  /** `String(court.id)`, the room and payload id of the broadcast. */
  function CourtIdText(id: CourtId): string
  {
    match id
    case NumericId(n) => IntToString(n)
    case TextId(t) => t
  }

  /** The broadcast id of a numeric court parses back to the same court. */
  lemma CourtIdTextNamesSameCourt(n: int)
    ensures NumericCourtId(TextId(CourtIdText(NumericId(n)))) == NumericCourtId(NumericId(n))
  {
    ParseIntOfIntToString(n);
  }

  // ---------------------------------------------------------------------
  // The job
  // ---------------------------------------------------------------------

  /** What a job ends with: its return value, the error it throws, or the
      store refusing a cache row whose court id is NaN. */
  datatype JobOutcome =
    | JobCompleted(entriesCount: nat, hearingsUpdated: nat)
    | JobFailed(message: string)
    | StoreRejected

  /** `result.error || 'Scrape failed'`. */
  function FailureMessage(error: Option<string>): (m: string)
    ensures Truthy(error) ==> m == error.value
    ensures !Truthy(error) ==> m == "Scrape failed"
  {
    if Truthy(error) then error.value else "Scrape failed"
  }

  /** The persistent state the job reads and writes: the hearing table and the
      display-board cache. */
  class Store {
    const hearings: array<Hearing>
    var cache: map<CacheKey, CacheRow>

    constructor (initial: seq<Hearing>)
      ensures fresh(hearings) && hearings[..] == initial
      ensures cache == map[]
    {
      hearings := new Hearing[|initial|](i requires 0 <= i < |initial| => initial[i]);
      cache := map[];
    }

    /** `findMany` for one entry: the rows its filter selects. */
    method FindMatching(courtId: int, e: DisplayBoardEntry, w: DayWindow) returns (ids: seq<nat>)
      ensures forall i :: i in ids <==> 0 <= i < hearings.Length && Matches(hearings[i], courtId, e, w)
      ensures |ids| == MatchCount(hearings[..], courtId, e, w, hearings.Length)
    {
      ids := [];
      for j := 0 to hearings.Length
        invariant forall i :: i in ids <==> 0 <= i < j && Matches(hearings[i], courtId, e, w)
        invariant |ids| == MatchCount(hearings[..], courtId, e, w, j)
      {
        if Matches(hearings[j], courtId, e, w) {
          ids := ids + [j];
        }
      }
    }

    /** `updateMany`: the listed rows become IN_PROGRESS; all else stays. */
    method UpdateMany(ids: seq<nat>)
      requires forall k :: 0 <= k < |ids| ==> ids[k] < hearings.Length
      modifies hearings
      ensures forall i :: 0 <= i < hearings.Length ==>
        hearings[i] == if i in ids then old(hearings[i]).(status := HearingInProgress) else old(hearings[i])
    {
      for k := 0 to |ids|
        invariant forall i :: 0 <= i < hearings.Length ==>
          hearings[i] == if i in ids[..k] then old(hearings[i]).(status := HearingInProgress) else old(hearings[i])
      {
        hearings[ids[k]] := hearings[ids[k]].(status := HearingInProgress);
        assert ids[..k + 1] == ids[..k] + [ids[k]];
      }
      assert ids[..|ids|] == ids;
    }

    /** The body of the loop for an entry with an item number: find, update
        when something matched, and report how many rows matched. */
    method ReconcileEntry(courtId: int, e: DisplayBoardEntry, w: DayWindow) returns (count: nat)
      modifies hearings
      ensures hearings[..] == PromoteEntry(old(hearings[..]), courtId, e, w)
      ensures count == MatchCount(old(hearings[..]), courtId, e, w, hearings.Length)
    {
      ghost var before := hearings[..];
      var ids := FindMatching(courtId, e, w);
      count := |ids|;
      if |ids| > 0 {
        forall k | 0 <= k < |ids|
          ensures ids[k] < hearings.Length
        {
          assert ids[k] in ids;
        }
        UpdateMany(ids);
      }
      assert forall i :: 0 <= i < hearings.Length ==> hearings[..][i] == Promote(before[i], courtId, e, w);
    }

    /** `updateHearingStatuses`: promote today's matching scheduled hearings,
        entry by entry, and return how many were promoted. */
    method UpdateHearingStatuses(courtId: CourtId, entries: seq<DisplayBoardEntry>, nowMs: int) returns (total: nat)
      modifies hearings
      ensures NumericCourtId(courtId).None? ==> total == 0 && hearings[..] == old(hearings[..])
      ensures NumericCourtId(courtId).Some? ==>
        hearings[..] == PromoteAll(old(hearings[..]), NumericCourtId(courtId).value, entries, TodayRangeIST(nowMs))
      ensures total == PromotedCount(old(hearings[..]), hearings[..], hearings.Length)
    {
      var id := NumericCourtId(courtId);
      if id.None? {
        NothingPromotedYet(hearings[..], hearings.Length);
        return 0;
      }
      var w := TodayRangeIST(nowMs);
      total := 0;
      ghost var initial := hearings[..];
      for k := 0 to |entries|
        invariant hearings[..] == PromoteAll(initial, id.value, entries[..k], w)
        invariant total == TotalPromoted(initial, id.value, entries[..k], w)
      {
        var entry := entries[k];
        assert entries[..k + 1][..k] == entries[..k];
        if !Truthy(entry.itemNumber) {
          UnusableEntryChangesNothing(hearings[..], id.value, entry, w);
          continue;
        }
        var count := ReconcileEntry(id.value, entry, w);
        total := total + count;
      }
      assert entries[..|entries|] == entries;
      TotalIsPromotedCount(initial, id.value, entries, w);
    }

    /** The loop of `upsert` calls, one per entry, in order. */
    method UpsertEntries(courtId: int, entries: seq<DisplayBoardEntry>, nowMs: int)
      modifies this
      ensures cache == UpsertAll(old(cache), courtId, entries, nowMs)
    {
      for k := 0 to |entries|
        invariant cache == UpsertAll(old(cache), courtId, entries[..k], nowMs)
      {
        assert entries[..k + 1][..k] == entries[..k];
        cache := cache[CacheKey(courtId, entries[k].courtNumber) := RowOf(entries[k], nowMs)];
      }
      assert entries[..|entries|] == entries;
    }

    /** The job handler: scrape, fail fast, upsert, reconcile, broadcast and
        report. `nowMs` is the clock reading and `timestamp` its ISO form. */
    method ProcessJob(browser: Browser, court: CourtInfo, apiKey: string, web: string -> PageLoad,
                      gemini: string -> GeminiReply, nowMs: int, timestamp: string)
      returns (outcome: JobOutcome, emitted: Option<DisplayUpdatePayload>)
      modifies this, hearings, browser
      ensures var r := Scrapers.ScrapeCourtResult(court, apiKey, web, gemini);
        var id := NumericCourtId(court.id);
        if !r.success then
          outcome == JobFailed(FailureMessage(r.error)) && emitted.None?
          && cache == old(cache) && hearings[..] == old(hearings[..])
        else if id.None? && r.entries != [] then
          outcome == StoreRejected && emitted.None?
          && cache == old(cache) && hearings[..] == old(hearings[..])
        else
          cache == (if id.Some? then UpsertAll(old(cache), id.value, r.entries, nowMs) else old(cache))
          && hearings[..] == (if id.Some? then PromoteAll(old(hearings[..]), id.value, r.entries, TodayRangeIST(nowMs))
                              else old(hearings[..]))
          && outcome == JobCompleted(|r.entries|, PromotedCount(old(hearings[..]), hearings[..], hearings.Length))
          && emitted == Some(DisplayUpdatePayload(CourtIdText(court.id), court.courtName, r.entries, timestamp))
      ensures browser.pagesOpened == old(browser.pagesOpened) + 1
      ensures browser.pagesClosed == old(browser.pagesClosed) + 1
    {
      var result := Scrapers.ScrapeCourt(browser, court, apiKey, web, gemini);
      if !result.success {
        return JobFailed(FailureMessage(result.error)), None;
      }
      var id := NumericCourtId(court.id);
      if id.None? && result.entries != [] {
        return StoreRejected, None;
      }
      if id.Some? {
        UpsertEntries(id.value, result.entries, nowMs);
      }
      var hearingsUpdated := UpdateHearingStatuses(court.id, result.entries, nowMs);
      emitted := Some(DisplayUpdatePayload(CourtIdText(court.id), court.courtName, result.entries, timestamp));
      outcome := JobCompleted(|result.entries|, hearingsUpdated);
    }
  }
}
