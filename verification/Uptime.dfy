/**
 The uptime calculator (src/api/Fig.Api/Reports/UptimeCalculator.cs): session events and
 active sessions become clamped intervals, the intervals are merged, and what they leave
 open are the outages. Times are ticks.
 */
module Uptime {
  import opened Text
  import opened Linq

  datatype EventKind = NewSession | ExpiredSession | OtherEvent

  /** `uptime` is the up time that `TryParseUptimeSeconds` reads from the event's original
      value, in ticks, if there is one. */
  datatype Event = Event(timestamp: int, kind: EventKind, uptime: Option<nat>)

  datatype Session = Session(startTime: int, lastSeen: int)

  datatype Interval = Interval(start: int, end: int, isOnline: bool)

  datatype Report = Report(from: int, to: int, uptime: int, downtime: int, uptimePercent: real, downtimePercent: real,
                           peak: int, online: seq<Interval>, outages: seq<Interval>)

  datatype Result = Calculated(report: Report) | ArgumentError

  const ByTimestamp: Event -> int := (e: Event) => e.timestamp
  const ByStart: Interval -> int := (iv: Interval) => iv.start

  function Clamp(value: int, from: int, to: int): (r: int)
    requires from <= to
    ensures from <= r <= to
  {
    if value < from then from else if value > to then to else value
  }

  /** Clamping moves nothing across an instant of the range. */
  lemma ClampBelow(value: int, from: int, to: int, t: int)
    requires from <= t < to
    ensures Clamp(value, from, to) <= t <==> value <= t
  {
  }

  // ----- which instants a list of intervals covers

  predicate Has(iv: Interval, t: int) {
    iv.start <= t < iv.end
  }

  predicate Covered(ivs: seq<Interval>, t: int) {
    exists k :: 0 <= k < |ivs| && Has(ivs[k], t)
  }

  /** How many of the intervals contain t. */
  function Cover(ivs: seq<Interval>, t: int): nat {
    if ivs == [] then 0
    else Cover(ivs[..|ivs| - 1], t) + if Has(ivs[|ivs| - 1], t) then 1 else 0
  }

  lemma {:induction false} CoverAppend(ivs: seq<Interval>, iv: Interval, t: int)
    ensures Cover(ivs + [iv], t) == Cover(ivs, t) + if Has(iv, t) then 1 else 0
  {
    assert (ivs + [iv])[..|ivs + [iv]| - 1] == ivs;
  }

  lemma {:induction false} CoverPositive(ivs: seq<Interval>, t: int)
    ensures Cover(ivs, t) > 0 <==> Covered(ivs, t)
  {
    if ivs != [] {
      var init := ivs[..|ivs| - 1];
      CoverPositive(init, t);
      assert ivs == init + [ivs[|ivs| - 1]];
      if Covered(ivs, t) && !Has(ivs[|ivs| - 1], t) {
        var k :| 0 <= k < |ivs| && Has(ivs[k], t);
        assert Has(init[k], t);
      }
    }
  }

  /** Sorted, none empty, and with a gap between any two. */
  predicate Separated(ivs: seq<Interval>) {
    && (forall k :: 0 <= k < |ivs| ==> ivs[k].start < ivs[k].end)
    && (forall k, l :: 0 <= k < l < |ivs| ==> ivs[k].end < ivs[l].start)
  }

  predicate Within(ivs: seq<Interval>, from: int, to: int) {
    forall k :: 0 <= k < |ivs| ==> from <= ivs[k].start <= ivs[k].end <= to
  }

  predicate NoneEmpty(ivs: seq<Interval>) {
    forall k :: 0 <= k < |ivs| ==> ivs[k].start < ivs[k].end
  }

  predicate AllOnline(ivs: seq<Interval>, online: bool) {
    forall k :: 0 <= k < |ivs| ==> ivs[k].isOnline == online
  }

  // ----- what the events say, without any pairing of starts and ends

  /** Sessions known to be open after the events: a start opens one, an expiry closes one
      if there is one. */
  function Depth(events: seq<Event>): nat {
    if events == [] then 0
    else
      var d := Depth(events[..|events| - 1]);
      match events[|events| - 1].kind {
        case NewSession => d + 1
        case ExpiredSession => if d > 0 then d - 1 else 0
        case OtherEvent => d
      }
  }

  /** How many sessions the events report as running at t: the starts so far, minus the
      expiries so far that close a known session, plus the expiries of unknown sessions whose
      reported up time reaches back to t. */
  function EventCover(events: seq<Event>, t: int): int {
    if events == [] then 0
    else
      var before := events[..|events| - 1];
      var e := events[|events| - 1];
      EventCover(before, t) + match e.kind {
        case NewSession => if e.timestamp <= t then 1 else 0
        case ExpiredSession =>
          if Depth(before) > 0 then if e.timestamp <= t then -1 else 0
          else if e.uptime.Some? && e.timestamp - e.uptime.value <= t < e.timestamp then 1
          else 0
        case OtherEvent => 0
      }
  }

  function StartedBy(t: int): Session -> bool {
    (session: Session) => session.startTime <= t
  }

  /** How many of the open starts are not later than t. */
  function OpenCover(starts: seq<int>, t: int): nat {
    if starts == [] then 0
    else OpenCover(starts[..|starts| - 1], t) + if starts[|starts| - 1] <= t then 1 else 0
  }

  predicate Good(ivs: seq<Interval>, from: int, to: int) {
    Within(ivs, from, to) && NoneEmpty(ivs) && AllOnline(ivs, true)
  }

  /** The state of the pairing loop after `events`: the intervals made so far and the open
      starts together cover what the events say. */
  ghost predicate Paired(from: int, to: int, events: seq<Event>, starts: seq<int>, ivs: seq<Interval>) {
    && |starts| == Depth(events)
    && (forall k :: 0 <= k < |starts| ==> from <= starts[k] <= to)
    && Good(ivs, from, to)
    && (forall t :: from <= t < to ==> Cover(ivs, t) + OpenCover(starts, t) == EventCover(events, t))
  }

  /** The list after a possibly empty interval is offered to it. */
  function Added(ivs: seq<Interval>, start: int, end: int): seq<Interval> {
    if end > start then ivs + [Interval(start, end, true)] else ivs
  }

  lemma AddedCover(ivs: seq<Interval>, start: int, end: int, t: int)
    ensures Cover(Added(ivs, start, end), t) == Cover(ivs, t) + if start <= t < end then 1 else 0
  {
    CoverAppend(ivs, Interval(start, end, true), t);
  }

  lemma PairedStart(from: int, to: int, events: seq<Event>, e: Event, starts: seq<int>, ivs: seq<Interval>)
    requires from <= to && Paired(from, to, events, starts, ivs) && e.kind.NewSession?
    ensures Paired(from, to, events + [e], starts + [Clamp(e.timestamp, from, to)], ivs)
  {
    assert (events + [e])[..|events + [e]| - 1] == events;
    var starts' := starts + [Clamp(e.timestamp, from, to)];
    assert starts'[..|starts'| - 1] == starts;
    forall t | from <= t < to ensures Cover(ivs, t) + OpenCover(starts', t) == EventCover(events + [e], t) {
      ClampBelow(e.timestamp, from, to, t);
    }
  }

  lemma PairedOther(from: int, to: int, events: seq<Event>, e: Event, starts: seq<int>, ivs: seq<Interval>)
    requires Paired(from, to, events, starts, ivs)
    requires e.kind.OtherEvent? || (e.kind.ExpiredSession? && starts == [] && e.uptime.None?)
    ensures Paired(from, to, events + [e], starts, ivs)
  {
    assert (events + [e])[..|events + [e]| - 1] == events;
  }

  lemma PairedExpiry(from: int, to: int, events: seq<Event>, e: Event, starts: seq<int>, ivs: seq<Interval>)
    requires from <= to && Paired(from, to, events, starts, ivs) && e.kind.ExpiredSession? && starts != []
    requires starts[|starts| - 1] <= Clamp(e.timestamp, from, to)
    ensures Paired(from, to, events + [e], starts[..|starts| - 1], Added(ivs, starts[|starts| - 1], Clamp(e.timestamp, from, to)))
  {
    assert (events + [e])[..|events + [e]| - 1] == events;
    var start, end := starts[|starts| - 1], Clamp(e.timestamp, from, to);
    forall t | from <= t < to
      ensures Cover(Added(ivs, start, end), t) + OpenCover(starts[..|starts| - 1], t) == EventCover(events + [e], t)
    {
      ClampBelow(e.timestamp, from, to, t);
      AddedCover(ivs, start, end, t);
    }
  }

  lemma PairedUnknownExpiry(from: int, to: int, events: seq<Event>, e: Event, starts: seq<int>, ivs: seq<Interval>)
    requires from <= to && Paired(from, to, events, starts, ivs) && e.kind.ExpiredSession? && starts == [] && e.uptime.Some?
    ensures Paired(from, to, events + [e], starts,
                   Added(ivs, Clamp(e.timestamp - e.uptime.value, from, to), Clamp(e.timestamp, from, to)))
  {
    assert (events + [e])[..|events + [e]| - 1] == events;
    var start, end := Clamp(e.timestamp - e.uptime.value, from, to), Clamp(e.timestamp, from, to);
    forall t | from <= t < to
      ensures Cover(Added(ivs, start, end), t) + OpenCover(starts, t) == EventCover(events + [e], t)
    {
      ClampBelow(e.timestamp, from, to, t);
      ClampBelow(e.timestamp - e.uptime.value, from, to, t);
      AddedCover(ivs, start, end, t);
    }
  }

  /** The intervals of all sessions. Whatever open start an expiry is paired with, the number
      of intervals over any instant of the range is what the events and sessions say: if every
      expiry closes a known session, the starts by then, less the expiries by then, plus the
      active sessions. */
  method BuildSessionIntervals(from: int, to: int, sessionEvents: seq<Event>, activeSessions: seq<Session>)
    returns (intervals: seq<Interval>)
    requires from <= to
    ensures Good(intervals, from, to)
    ensures forall t :: from <= t < to ==>
      Cover(intervals, t) == EventCover(OrderBy(sessionEvents, ByTimestamp), t) + Count(activeSessions, StartedBy(t))
    ensures !HasUnmatched(OrderBy(sessionEvents, ByTimestamp)) ==> forall t :: from <= t < to ==>
      Cover(intervals, t) == Count(sessionEvents, IsNewBy(t)) - Count(sessionEvents, IsExpiredBy(t)) + Count(activeSessions, StartedBy(t))
  {
    var openStarts;
    intervals, openStarts := PairEvents(from, to, OrderBy(sessionEvents, ByTimestamp));
    intervals := CloseOpenStarts(to, openStarts, intervals, from);
    intervals := AddActiveSessions(from, to, activeSessions, intervals);
    if !HasUnmatched(OrderBy(sessionEvents, ByTimestamp)) {
      forall t | from <= t < to
        ensures Cover(intervals, t) == Count(sessionEvents, IsNewBy(t)) - Count(sessionEvents, IsExpiredBy(t)) + Count(activeSessions, StartedBy(t))
      {
        PairingIsHarmless(sessionEvents, t);
      }
    }
  }

  /** The loop over the ordered events, with its stack of open starts. */
  method PairEvents(from: int, to: int, ordered: seq<Event>) returns (intervals: seq<Interval>, openStarts: seq<int>)
    requires from <= to && SortedBy(ordered, ByTimestamp)
    ensures Paired(from, to, ordered, openStarts, intervals)
  {
    intervals, openStarts := [], [];
    for i := 0 to |ordered|
      invariant Paired(from, to, ordered[..i], openStarts, intervals)
      invariant forall k, j :: 0 <= k < |openStarts| && i <= j < |ordered| ==> openStarts[k] <= Clamp(ordered[j].timestamp, from, to)
    {
      var evt := ordered[i];
      assert ordered[..i + 1] == ordered[..i] + [evt];
      assert forall j :: i <= j < |ordered| ==> ByTimestamp(evt) <= ByTimestamp(ordered[j]);
      if evt.kind == NewSession {
        PairedStart(from, to, ordered[..i], evt, openStarts, intervals);
        openStarts := openStarts + [Clamp(evt.timestamp, from, to)];
      } else if evt.kind == ExpiredSession {
        var end := Clamp(evt.timestamp, from, to);
        var start;
        if |openStarts| > 0 {
          PairedExpiry(from, to, ordered[..i], evt, openStarts, intervals);
          start := openStarts[|openStarts| - 1];
          openStarts := openStarts[..|openStarts| - 1];
        } else if evt.uptime.Some? {
          PairedUnknownExpiry(from, to, ordered[..i], evt, openStarts, intervals);
          start := Clamp(evt.timestamp - evt.uptime.value, from, to);
        } else {
          PairedOther(from, to, ordered[..i], evt, openStarts, intervals);
          continue;
        }
        if end > start {
          intervals := intervals + [Interval(start, end, true)];
        }
      } else {
        PairedOther(from, to, ordered[..i], evt, openStarts, intervals);
      }
    }
    assert ordered[..|ordered|] == ordered;
  }

  /** The while loop that closes the open starts at the end of the range. */
  method CloseOpenStarts(to: int, starts: seq<int>, ivs: seq<Interval>, ghost from: int) returns (intervals: seq<Interval>)
    requires Good(ivs, from, to) && forall k :: 0 <= k < |starts| ==> from <= starts[k] <= to
    ensures Good(intervals, from, to)
    ensures forall t :: from <= t < to ==> Cover(intervals, t) == Cover(ivs, t) + OpenCover(starts, t)
  {
    var openStarts := starts;
    intervals := ivs;
    while |openStarts| > 0
      invariant forall k :: 0 <= k < |openStarts| ==> from <= openStarts[k] <= to
      invariant Good(intervals, from, to)
      invariant forall t :: from <= t < to ==> Cover(intervals, t) + OpenCover(openStarts, t) == Cover(ivs, t) + OpenCover(starts, t)
    {
      ghost var was := intervals;
      var start := openStarts[|openStarts| - 1];
      openStarts := openStarts[..|openStarts| - 1];
      if to > start {
        intervals := intervals + [Interval(start, to, true)];
      }
      forall t | from <= t < to ensures Cover(intervals, t) + OpenCover(openStarts, t) == Cover(ivs, t) + OpenCover(starts, t) {
        AddedCover(was, start, to, t);
      }
    }
  }

  /** The last loop: an active session is online to the end of the range, whenever it was
      last seen. */
  method AddActiveSessions(from: int, to: int, activeSessions: seq<Session>, ivs: seq<Interval>) returns (intervals: seq<Interval>)
    requires from <= to && Good(ivs, from, to)
    ensures Good(intervals, from, to)
    ensures forall t :: from <= t < to ==> Cover(intervals, t) == Cover(ivs, t) + Count(activeSessions, StartedBy(t))
  {
    intervals := ivs;
    for i := 0 to |activeSessions|
      invariant Good(intervals, from, to)
      invariant forall t :: from <= t < to ==> Cover(intervals, t) == Cover(ivs, t) + Count(activeSessions[..i], StartedBy(t))
    {
      ghost var was := intervals;
      var session := activeSessions[i];
      var start := Clamp(session.startTime, from, to);
      var end := Clamp(if session.lastSeen > to then to else session.lastSeen, from, to);
      if end < to {
        end := to;
      }
      if end > start {
        intervals := intervals + [Interval(start, end, true)];
      }
      assert activeSessions[..i + 1] == activeSessions[..i] + [session];
      forall t | from <= t < to ensures Cover(intervals, t) == Cover(ivs, t) + Count(activeSessions[..i + 1], StartedBy(t)) {
        AddedCover(was, start, to, t);
        ClampBelow(session.startTime, from, to, t);
        FilterSnoc(activeSessions[..i], session, StartedBy(t));
      }
    }
    assert activeSessions[..|activeSessions|] == activeSessions;
  }

  // ----- what that number means

  /** Some expiry closes no session that the events opened. */
  predicate HasUnmatched(events: seq<Event>) {
    events != [] &&
    var before := events[..|events| - 1];
    HasUnmatched(before) || (events[|events| - 1].kind.ExpiredSession? && Depth(before) == 0)
  }

  function IsNewBy(t: int): Event -> bool {
    (e: Event) => e.kind.NewSession? && e.timestamp <= t
  }

  function IsExpiredBy(t: int): Event -> bool {
    (e: Event) => e.kind.ExpiredSession? && e.timestamp <= t
  }

  lemma {:induction false} MatchedCover(events: seq<Event>, t: int)
    requires !HasUnmatched(events)
    ensures EventCover(events, t) == Count(events, IsNewBy(t)) - Count(events, IsExpiredBy(t))
  {
    if events != [] {
      MatchedCover(events[..|events| - 1], t);
    }
  }

  /** The LIFO pairing is harmless: with no unmatched expiry, the intervals built from the
      events cover an instant exactly as often as sessions started by then, less those that
      expired by then. The right-hand side knows neither pairing nor clamping nor order. */
  lemma PairingIsHarmless(sessionEvents: seq<Event>, t: int)
    requires !HasUnmatched(OrderBy(sessionEvents, ByTimestamp))
    ensures EventCover(OrderBy(sessionEvents, ByTimestamp), t)
            == Count(sessionEvents, IsNewBy(t)) - Count(sessionEvents, IsExpiredBy(t))
  {
    MatchedCover(OrderBy(sessionEvents, ByTimestamp), t);
    OrderByCount(sessionEvents, ByTimestamp, IsNewBy(t));
    OrderByCount(sessionEvents, ByTimestamp, IsExpiredBy(t));
  }

  // ----- the same in the events' own terms

  function IsNew(e: Event): bool {
    e.kind.NewSession?
  }

  function IsExpiry(e: Event): bool {
    e.kind.ExpiredSession?
  }

  /** Starts less expiries. */
  function Excess(events: seq<Event>): int {
    Count(events, IsNew) - Count(events, IsExpiry)
  }

  lemma ExcessSnoc(events: seq<Event>, e: Event)
    ensures Excess(events + [e]) == Excess(events) + (if IsNew(e) then 1 else 0) - (if IsExpiry(e) then 1 else 0)
  {
    FilterSnoc(events, e, IsNew);
    FilterSnoc(events, e, IsExpiry);
  }

  /** Sessions known to be open: the most by which starts exceed expiries at the end of the list. */
  lemma {:induction false} DepthIsExcess(events: seq<Event>)
    ensures forall j :: 0 <= j <= |events| ==> Excess(events[j..]) <= Depth(events)
    ensures exists j :: 0 <= j <= |events| && Excess(events[j..]) == Depth(events)
  {
    var n := |events|;
    assert events[n..] == [] && Excess(events[n..]) == 0;
    if events != [] {
      var before := events[..n - 1];
      DepthIsExcess(before);
      forall j | 0 <= j < n ensures Excess(events[j..]) == Excess(before[j..]) + Change(events[n - 1]) {
        ExcessGrows(events, j);
      }
      DepthGrows(events);
      var j :| 0 <= j <= n - 1 && Excess(before[j..]) == Depth(before);
      assert Excess(events[if Depth(before) + Change(events[n - 1]) >= 0 then j else n..]) == Depth(events);
    }
  }

  function Change(e: Event): int {
    (if IsNew(e) then 1 else 0) - (if IsExpiry(e) then 1 else 0)
  }

  lemma ExcessGrows(events: seq<Event>, j: nat)
    requires j < |events|
    ensures Excess(events[j..]) == Excess(events[..|events| - 1][j..]) + Change(events[|events| - 1])
  {
    var before, e := events[..|events| - 1], events[|events| - 1];
    assert events[j..] == before[j..] + [e];
    ExcessSnoc(before[j..], e);
  }

  lemma DepthGrows(events: seq<Event>)
    requires events != []
    ensures var d := Depth(events[..|events| - 1]) + Change(events[|events| - 1]); Depth(events) == if d >= 0 then d else 0
  {
  }

  /** Event i is an expiry of a session that no event before it opened: in every stretch up to it
      there are no more starts than expiries. */
  ghost predicate IsUnmatched(events: seq<Event>, i: nat)
    requires i < |events|
  {
    events[i].kind.ExpiredSession? && forall j :: 0 <= j <= i ==> Excess(events[j..i]) <= 0
  }

  lemma UnmatchedIs(events: seq<Event>, i: nat)
    requires i < |events|
    ensures IsUnmatched(events, i) <==> events[i].kind.ExpiredSession? && Depth(events[..i]) == 0
  {
    DepthIsExcess(events[..i]);
    assert forall j :: 0 <= j <= i ==> events[..i][j..] == events[j..i];
  }

  /** The expiry reports an up time that reaches back to t. */
  predicate ReachesBack(e: Event, t: int) {
    e.uptime.Some? && e.timestamp - e.uptime.value <= t < e.timestamp
  }

  ghost function UnmatchedBy(events: seq<Event>, t: int): set<nat> {
    set i: nat | i < |events| && IsUnmatched(events, i) && events[i].timestamp <= t
  }

  ghost function UnmatchedOver(events: seq<Event>, t: int): set<nat> {
    set i: nat | i < |events| && IsUnmatched(events, i) && ReachesBack(events[i], t)
  }

  lemma UnmatchedInit(events: seq<Event>, i: nat)
    requires i < |events| - 1
    ensures IsUnmatched(events[..|events| - 1], i) == IsUnmatched(events, i)
  {
    var before := events[..|events| - 1];
    assert forall j :: 0 <= j <= i ==> before[j..i] == events[j..i];
  }

  lemma UnmatchedLast(events: seq<Event>, t: int)
    requires events != []
    ensures var n := |events| - 1;
            && UnmatchedBy(events, t) == UnmatchedBy(events[..n], t) + (if IsUnmatched(events, n) && events[n].timestamp <= t then {n} else {})
            && UnmatchedOver(events, t) == UnmatchedOver(events[..n], t) + (if IsUnmatched(events, n) && ReachesBack(events[n], t) then {n} else {})
            && n !in UnmatchedBy(events[..n], t) && n !in UnmatchedOver(events[..n], t)
  {
    forall i: nat | i < |events| - 1 ensures IsUnmatched(events[..|events| - 1], i) == IsUnmatched(events, i) {
      UnmatchedInit(events, i);
    }
  }

  lemma CountLast(events: seq<Event>, p: Event -> bool)
    requires events != []
    ensures Count(events, p) == Count(events[..|events| - 1], p) + if p(events[|events| - 1]) then 1 else 0
  {
  }

  /** What the events report for an instant: starts by then, less the expiries by then that close a
      session, plus the other expiries whose up time reaches back to it. */
  lemma {:induction false} EventCoverIs(events: seq<Event>, t: int)
    ensures EventCover(events, t)
            == Count(events, IsNewBy(t)) - (Count(events, IsExpiredBy(t)) - |UnmatchedBy(events, t)|) + |UnmatchedOver(events, t)|
  {
    if events != [] {
      EventCoverIs(events[..|events| - 1], t);
      UnmatchedIs(events, |events| - 1);
      UnmatchedLast(events, t);
      CountLast(events, IsNewBy(t));
      CountLast(events, IsExpiredBy(t));
    }
  }

  lemma {:induction false} MaxDepthIs(events: seq<Event>)
    ensures forall k :: 0 <= k <= |events| ==> Depth(events[..k]) <= MaxDepth(events)
    ensures exists k :: 0 <= k <= |events| && Depth(events[..k]) == MaxDepth(events)
  {
    var n := |events|;
    assert events[..n] == events;
    if n > 0 {
      var before := events[..n - 1];
      MaxDepthIs(before);
      assert forall k :: 0 <= k < n ==> before[..k] == events[..k];
      var k :| 0 <= k <= n - 1 && Depth(before[..k]) == MaxDepth(before);
      assert Depth(events[..k]) == MaxDepth(before);
    }
  }

  lemma {:induction false} HasUnmatchedIs(events: seq<Event>)
    ensures HasUnmatched(events) <==> exists i: nat :: i < |events| && IsUnmatched(events, i)
  {
    if events != [] {
      var n := |events| - 1;
      HasUnmatchedIs(events[..n]);
      UnmatchedIs(events, n);
      forall i: nat | i < n ensures IsUnmatched(events[..n], i) == IsUnmatched(events, i) {
        UnmatchedInit(events, i);
      }
    }
  }

  // ----- merging

  /** Sorts the intervals and joins those that touch. */
  method MergeIntervals(intervals: seq<Interval>, ghost from: int, ghost to: int) returns (merged: seq<Interval>)
    requires Good(intervals, from, to)
    ensures Separated(merged) && Good(merged, from, to)
    ensures forall t :: Covered(merged, t) <==> Covered(intervals, t)
  {
    if |intervals| == 0 {
      return intervals;
    }
    var ordered := OrderBy(intervals, ByStart);
    SameElements(intervals, ordered, from, to);
    merged := MergeOrdered(ordered, from, to);
  }

  method MergeOrdered(ordered: seq<Interval>, ghost from: int, ghost to: int) returns (merged: seq<Interval>)
    requires Good(ordered, from, to) && SortedBy(ordered, ByStart) && ordered != []
    ensures Separated(merged) && Good(merged, from, to)
    ensures forall t :: Covered(merged, t) <==> Covered(ordered, t)
  {
    merged := [ordered[0]];
    for i := 1 to |ordered|
      invariant |merged| > 0 && Separated(merged) && Good(merged, from, to)
      invariant merged[|merged| - 1].start <= ordered[i - 1].start
      invariant forall t :: Covered(merged, t) <==> Covered(ordered[..i], t)
    {
      var last := merged[|merged| - 1];
      var current := ordered[i];
      assert ByStart(ordered[i - 1]) <= ByStart(current);
      ghost var was := merged;
      if current.start <= last.end {
        merged := merged[|merged| - 1 := last.(end := if current.end > last.end then current.end else last.end)];
      } else {
        merged := merged + [current];
      }
      MergeStep(was, current, merged, ordered[..i]);
      assert ordered[..i + 1] == ordered[..i] + [current];
    }
    assert ordered[..|ordered|] == ordered;
  }

  lemma SameElements(s: seq<Interval>, r: seq<Interval>, from: int, to: int)
    requires multiset(s) == multiset(r)
    ensures Good(s, from, to) ==> Good(r, from, to)
    ensures forall t :: Covered(s, t) <==> Covered(r, t)
  {
    assert forall k :: 0 <= k < |s| ==> s[k] in multiset(r);
    assert forall k :: 0 <= k < |r| ==> r[k] in multiset(s);
  }

  lemma MergeStep(was: seq<Interval>, current: Interval, merged: seq<Interval>, prefix: seq<Interval>)
    requires |was| > 0 && was[|was| - 1].start <= current.start < current.end
    requires forall t :: Covered(was, t) <==> Covered(prefix, t)
    requires var last := was[|was| - 1];
             merged == if current.start <= last.end
                       then was[|was| - 1 := last.(end := if current.end > last.end then current.end else last.end)]
                       else was + [current]
    ensures forall t :: Covered(merged, t) <==> Covered(prefix + [current], t)
  {
    forall t ensures Covered(merged, t) <==> Covered(prefix + [current], t) {
      var n := |was| - 1;
      CoveredSplit(prefix, current, t);
      CoveredSplit(was[..n], was[n], t);
      assert was[..n] + [was[n]] == was;
      if current.start <= was[n].end {
        CoveredSplit(was[..n], merged[n], t);
        assert was[..n] + [merged[n]] == merged;
      } else {
        CoveredSplit(was, current, t);
      }
    }
  }

  lemma CoveredSplit(ivs: seq<Interval>, iv: Interval, t: int)
    ensures Covered(ivs + [iv], t) <==> Covered(ivs, t) || Has(iv, t)
  {
    if Has(iv, t) {
      assert Has((ivs + [iv])[|ivs|], t);
    }
    if k :| 0 <= k < |ivs| && Has(ivs[k], t) {
      assert Has((ivs + [iv])[k], t);
    }
  }

  /** The merged list is canonical: no other separated list covers the same instants. */
  lemma {:induction false} SeparatedUnique(a: seq<Interval>, b: seq<Interval>)
    requires Separated(a) && Separated(b) && AllOnline(a, true) && AllOnline(b, true)
    requires forall t :: Covered(a, t) <==> Covered(b, t)
    ensures a == b
  {
    FirstCovered(a);
    FirstCovered(b);
    assert a == [] ==> forall t :: !Covered(a, t);
    assert b == [] ==> forall t :: !Covered(b, t);
    if a != [] {
      FirstStart(a, b);
      FirstStart(b, a);
      FirstEnd(a, b);
      FirstEnd(b, a);
      forall t ensures Covered(a[1..], t) <==> Covered(b[1..], t) {
        CoveredTail(a, t);
        CoveredTail(b, t);
      }
      SeparatedUnique(a[1..], b[1..]);
    }
  }

  lemma FirstCovered(a: seq<Interval>)
    requires Separated(a)
    ensures a != [] ==> Covered(a, a[0].start) && !Covered(a, a[0].end)
  {
    if a != [] {
      assert Has(a[0], a[0].start);
    }
  }

  lemma FirstStart(a: seq<Interval>, b: seq<Interval>)
    requires Separated(a) && Separated(b) && a != [] && b != []
    requires forall t :: Covered(a, t) <==> Covered(b, t)
    ensures b[0].start <= a[0].start
  {
    FirstCovered(a);
    var k :| 0 <= k < |b| && Has(b[k], a[0].start);
  }

  lemma FirstEnd(a: seq<Interval>, b: seq<Interval>)
    requires Separated(a) && Separated(b) && a != [] && b != [] && a[0].start == b[0].start
    requires forall t :: Covered(a, t) <==> Covered(b, t)
    ensures a[0].end <= b[0].end
  {
    FirstCovered(b);
    assert !Covered(a, b[0].end);
    assert !Has(a[0], b[0].end);
  }

  lemma CoveredTail(a: seq<Interval>, t: int)
    requires Separated(a) && a != []
    ensures Covered(a[1..], t) <==> Covered(a, t) && a[0].end <= t
  {
    if k :| 0 <= k < |a| && Has(a[k], t) && a[0].end <= t {
      assert Has(a[1..][k - 1], t);
    }
    if k :| 0 <= k < |a[1..]| && Has(a[1..][k], t) {
      assert Has(a[k + 1], t);
    }
  }

  // ----- outages

  function TotalDuration(ivs: seq<Interval>): int {
    if ivs == [] then 0
    else TotalDuration(ivs[..|ivs| - 1]) + ivs[|ivs| - 1].end - ivs[|ivs| - 1].start
  }

  lemma TotalAppend(ivs: seq<Interval>, iv: Interval)
    ensures TotalDuration(ivs + [iv]) == TotalDuration(ivs) + iv.end - iv.start
  {
    assert (ivs + [iv])[..|ivs + [iv]| - 1] == ivs;
  }

  /** What `done` and `outages` have to satisfy once the cursor is reached. */
  ghost predicate Tiled(from: int, cursor: int, done: seq<Interval>, outages: seq<Interval>) {
    && from <= cursor
    && (forall t :: Cover(done, t) + Cover(outages, t) == if from <= t < cursor then 1 else 0)
    && TotalDuration(done) + TotalDuration(outages) == cursor - from
    && Separated(outages) && AllOnline(outages, false) && Within(outages, from, cursor)
  }

  lemma TiledOutage(from: int, cursor: int, done: seq<Interval>, outages: seq<Interval>, start: int)
    requires Tiled(from, cursor, done, outages) && cursor < start
    requires outages != [] ==> outages[|outages| - 1].end < cursor
    ensures Tiled(from, start, done, outages + [Interval(cursor, start, false)])
  {
    var gap := Interval(cursor, start, false);
    TotalAppend(outages, gap);
    forall t ensures Cover(done, t) + Cover(outages + [gap], t) == if from <= t < start then 1 else 0 {
      CoverAppend(outages, gap, t);
    }
  }

  lemma TiledOnline(from: int, cursor: int, done: seq<Interval>, outages: seq<Interval>, iv: Interval)
    requires Tiled(from, cursor, done, outages) && iv.start == cursor < iv.end
    ensures Tiled(from, iv.end, done + [iv], outages)
  {
    TotalAppend(done, iv);
    forall t ensures Cover(done + [iv], t) + Cover(outages, t) == if from <= t < iv.end then 1 else 0 {
      CoverAppend(done, iv, t);
    }
  }

  /** The complement of the merged intervals: together they tile the range. */
  method BuildOutages(from: int, to: int, online: seq<Interval>) returns (outages: seq<Interval>)
    requires from <= to && Separated(online) && Within(online, from, to)
    ensures Tiled(from, to, online, outages)
  {
    OrderByOfSorted(online, ByStart);
    var cursor;
    outages, cursor := OutagesBetween(from, OrderBy(online, ByStart), to);
    if cursor < to {
      TiledOutage(from, cursor, online, outages, to);
      outages := outages + [Interval(cursor, to, false)];
    }
  }

  method OutagesBetween(from: int, ordered: seq<Interval>, ghost to: int) returns (outages: seq<Interval>, cursor: int)
    requires from <= to && Separated(ordered) && Within(ordered, from, to)
    ensures cursor <= to && Tiled(from, cursor, ordered, outages)
    ensures outages != [] ==> outages[|outages| - 1].end < cursor
  {
    outages, cursor := [], from;
    for i := 0 to |ordered|
      invariant OutageInv(from, ordered, i, cursor, outages)
    {
      var onlineInterval := ordered[i];
      OutageStep(from, ordered, i, cursor, outages);
      if onlineInterval.start > cursor {
        outages := outages + [Interval(cursor, onlineInterval.start, false)];
      }
      if onlineInterval.end > cursor {
        cursor := onlineInterval.end;
      }
    }
    assert ordered[..|ordered|] == ordered;
  }

  ghost predicate OutageInv(from: int, ordered: seq<Interval>, i: int, cursor: int, outages: seq<Interval>)
    requires 0 <= i <= |ordered|
  {
    && cursor == (if i == 0 then from else ordered[i - 1].end)
    && Tiled(from, cursor, ordered[..i], outages)
    && (outages != [] ==> i > 0 && outages[|outages| - 1].end < cursor)
  }

  lemma OutageStep(from: int, ordered: seq<Interval>, i: nat, cursor: int, outages: seq<Interval>)
    requires i < |ordered| && Separated(ordered) && OutageInv(from, ordered, i, cursor, outages) && cursor <= ordered[i].start
    ensures OutageInv(from, ordered, i + 1, ordered[i].end,
                      if ordered[i].start > cursor then outages + [Interval(cursor, ordered[i].start, false)] else outages)
  {
    var iv := ordered[i];
    assert ordered[..i + 1] == ordered[..i] + [iv];
    if iv.start > cursor {
      TiledOutage(from, cursor, ordered[..i], outages, iv.start);
      TiledOnline(from, iv.start, ordered[..i], outages + [Interval(cursor, iv.start, false)], iv);
    } else {
      TiledOnline(from, iv.start, ordered[..i], outages, iv);
    }
  }

  ghost function Instants(iv: Interval): set<int> {
    set t | iv.start <= t < iv.end && Has(iv, t)
  }

  ghost function CoveredInstants(ivs: seq<Interval>, from: int, to: int): set<int> {
    set t | from <= t < to && Covered(ivs, t)
  }

  lemma {:induction false} InstantsOfInterval(iv: Interval)
    requires iv.start <= iv.end
    ensures |Instants(iv)| == iv.end - iv.start
    decreases iv.end - iv.start
  {
    if iv.start < iv.end {
      var shorter := iv.(end := iv.end - 1);
      InstantsOfInterval(shorter);
      assert Instants(iv) == Instants(shorter) + {iv.end - 1};
    } else {
      assert Instants(iv) == {};
    }
  }

  /** The summed durations of separated intervals are the number of instants they cover. */
  lemma {:induction false} TotalIsInstants(ivs: seq<Interval>, from: int, to: int)
    requires Separated(ivs) && Within(ivs, from, to)
    ensures TotalDuration(ivs) == |CoveredInstants(ivs, from, to)|
  {
    if ivs == [] {
      assert CoveredInstants(ivs, from, to) == {};
    } else {
      var init, last := ivs[..|ivs| - 1], ivs[|ivs| - 1];
      assert ivs == init + [last];
      TotalIsInstants(init, from, to);
      LastInstants(init, last, from, to);
    }
  }

  lemma LastInstants(init: seq<Interval>, last: Interval, from: int, to: int)
    requires from <= last.start <= last.end <= to && forall k :: 0 <= k < |init| ==> init[k].end < last.start
    ensures |CoveredInstants(init + [last], from, to)| == |CoveredInstants(init, from, to)| + last.end - last.start
  {
    InstantsOfInterval(last);
    forall t ensures t in CoveredInstants(init + [last], from, to) <==> t in CoveredInstants(init, from, to) || t in Instants(last) {
      CoveredSplit(init, last, t);
    }
    assert CoveredInstants(init + [last], from, to) == CoveredInstants(init, from, to) + Instants(last);
    assert CoveredInstants(init, from, to) !! Instants(last);
  }

  // ----- the peak

  /** The most sessions that were open at once. */
  function MaxDepth(events: seq<Event>): nat {
    if events == [] then 0
    else
      var m := MaxDepth(events[..|events| - 1]);
      if Depth(events) > m then Depth(events) else m
  }

  lemma {:induction false} DepthAtMostMax(events: seq<Event>)
    ensures Depth(events) <= MaxDepth(events)
  {
  }

  /** n is enough to explain the events and the active sessions that no event announced. */
  predicate Explains(n: int, events: seq<Event>, preexisting: nat) {
    && MaxDepth(events) <= n
    && (HasUnmatched(events) ==> 1 <= n)
    && Depth(events) + preexisting <= n
  }

  function StartedBefore(from: int): Session -> bool {
    (s: Session) => s.startTime < from
  }

  /** The peak is the least number that explains the events; when that is 0 although there are
      active sessions, the peak is their number. */
  ghost predicate IsLeastPeak(peak: int, ordered: seq<Event>, preexisting: nat, active: nat) {
    if Explains(0, ordered, preexisting) then peak == active
    else Explains(peak, ordered, preexisting) && forall n :: Explains(n, ordered, preexisting) ==> peak <= n
  }

  ghost predicate IsPeak(peak: int, from: int, sessionEvents: seq<Event>, activeSessions: seq<Session>) {
    IsLeastPeak(peak, OrderBy(sessionEvents, ByTimestamp), Count(activeSessions, StartedBefore(from)), |activeSessions|)
  }

  method ComputePeakConcurrentSessions(from: int, sessionEvents: seq<Event>, activeSessions: seq<Session>) returns (peak: int)
    ensures IsPeak(peak, from, sessionEvents, activeSessions)
  {
    var preexistingActive := Count(activeSessions, StartedBefore(from));
    peak := PeakOf(OrderBy(sessionEvents, ByTimestamp), preexistingActive, |activeSessions|);
  }

  method PeakOf(ordered: seq<Event>, preexistingActive: nat, active: nat) returns (peak: int)
    ensures IsLeastPeak(peak, ordered, preexistingActive, active)
  {
    var current;
    current, peak := CountSessions(ordered);
    peak := if peak >= current + preexistingActive then peak else current + preexistingActive;
    if peak == 0 && active > 0 {
      peak := active;
    }
  }

  method CountSessions(ordered: seq<Event>) returns (current: int, peak: int)
    ensures current == Depth(ordered)
    ensures peak == if HasUnmatched(ordered) && MaxDepth(ordered) == 0 then 1 else MaxDepth(ordered)
  {
    current, peak := 0, 0;
    for i := 0 to |ordered|
      invariant current == Depth(ordered[..i])
      invariant peak == if HasUnmatched(ordered[..i]) && MaxDepth(ordered[..i]) == 0 then 1 else MaxDepth(ordered[..i])
    {
      var evt := ordered[i];
      assert ordered[..i + 1][..i] == ordered[..i];
      DepthAtMostMax(ordered[..i]);
      if evt.kind == NewSession {
        current := current + 1;
        if current > peak {
          peak := current;
        }
      } else if evt.kind == ExpiredSession {
        if current > 0 {
          current := current - 1;
        } else {
          if peak < 1 {
            peak := 1;
          }
        }
      }
    }
    assert ordered[..|ordered|] == ordered;
  }

  predicate Ordered(events: seq<Event>) {
    forall i, j :: 0 <= i < j < |events| ==> events[i].timestamp <= events[j].timestamp
  }

  /** Some expiry closes no session that the events opened, and reports an up time. */
  predicate HasReported(events: seq<Event>) {
    events != [] &&
    var before, e := events[..|events| - 1], events[|events| - 1];
    HasReported(before) || (e.kind.ExpiredSession? && Depth(before) == 0 && e.uptime.Some? && e.uptime.value > 0)
  }

  lemma {:induction false} CoverAfterAll(events: seq<Event>, t: int)
    requires forall i :: 0 <= i < |events| ==> events[i].timestamp <= t
    ensures EventCover(events, t) == Depth(events)
  {
    if events != [] {
      CoverAfterAll(events[..|events| - 1], t);
    }
  }

  lemma {:induction false} CoverNotNegative(events: seq<Event>, t: int)
    requires Ordered(events)
    ensures EventCover(events, t) >= 0
  {
    if events != [] {
      var n := |events| - 1;
      if events[n].timestamp <= t {
        CoverAfterAll(events, t);
      } else {
        CoverNotNegative(events[..n], t);
      }
    }
  }

  lemma {:induction false} CoverAtMostMaxDepth(events: seq<Event>, t: int)
    requires !HasReported(events) && Ordered(events)
    ensures EventCover(events, t) <= MaxDepth(events)
  {
    if events != [] {
      var n := |events| - 1;
      if events[n].timestamp <= t {
        CoverAfterAll(events, t);
        DepthAtMostMax(events);
      } else {
        CoverAtMostMaxDepth(events[..n], t);
      }
    }
  }

  lemma OrderByIsOrdered(events: seq<Event>)
    ensures Ordered(OrderBy(events, ByTimestamp))
  {
    var r := OrderBy(events, ByTimestamp);
    assert SortedBy(r, ByTimestamp);
    forall i, j | 0 <= i < j < |r| ensures r[i].timestamp <= r[j].timestamp {
      assert ByTimestamp(r[i]) <= ByTimestamp(r[j]);
    }
  }

  /** With no unmatched expiry that reports an up time, the peak is at least the number of
      sessions that the events report as running, at any instant. */
  lemma PeakBoundsCover(peak: int, from: int, sessionEvents: seq<Event>, activeSessions: seq<Session>, t: int)
    requires IsPeak(peak, from, sessionEvents, activeSessions) && !HasReported(OrderBy(sessionEvents, ByTimestamp))
    ensures EventCover(OrderBy(sessionEvents, ByTimestamp), t) <= peak
  {
    OrderByIsOrdered(sessionEvents);
    CoverAtMostMaxDepth(OrderBy(sessionEvents, ByTimestamp), t);
  }

  /** The sessions that run at an instant of the range: those the events report, and the active
      ones from before the range, which no event announced. */
  function Running(from: int, sessionEvents: seq<Event>, activeSessions: seq<Session>, t: int): int {
    EventCover(OrderBy(sessionEvents, ByTimestamp), t) + Count(activeSessions, StartedBefore(from))
  }

  /** Where the intervals of the events start, as reported or computed from the up time. */
  function Starts(events: seq<Event>, from: int, to: int): (starts: set<int>)
    requires from <= to
    ensures forall u :: u in starts ==> from <= u <= to
  {
    if events == [] then {}
    else
      var before, e := events[..|events| - 1], events[|events| - 1];
      Starts(before, from, to) + match e.kind {
        case NewSession => {Clamp(e.timestamp, from, to)}
        case ExpiredSession => if Depth(before) == 0 && e.uptime.Some? then {Clamp(e.timestamp - e.uptime.value, from, to)} else {}
        case OtherEvent => {}
      }
  }

  /** Between two starts the number of running sessions only falls. */
  lemma {:induction false} CoverFalls(events: seq<Event>, from: int, to: int, t: int)
    requires from <= t < to && t !in Starts(events, from, to)
    ensures EventCover(events, t) <= if t == from then 0 else EventCover(events, t - 1)
  {
    if events != [] {
      CoverFalls(events[..|events| - 1], from, to, t);
    }
  }

  lemma {:induction false} StartsBoundCover(events: seq<Event>, from: int, to: int, t: int, n: int)
    requires from <= t < to && 0 <= n
    requires forall u :: u in Starts(events, from, to) && u < to ==> EventCover(events, u) <= n
    ensures EventCover(events, t) <= n
    decreases t - from
  {
    if t !in Starts(events, from, to) {
      CoverFalls(events, from, to, t);
      if t > from {
        StartsBoundCover(events, from, to, t - 1, n);
      }
    }
  }

  /** What the events and the sessions from before the range must say at an instant: no more
      sessions run than are open at the end, or than the deepest nesting, or than the one that
      any unmatched expiry counts for. */
  predicate PeakSuffices(ordered: seq<Event>, preexisting: nat, t: int) {
    var cover := EventCover(ordered, t);
    || cover <= Depth(ordered)
    || cover + preexisting <= MaxDepth(ordered)
    || (HasUnmatched(ordered) && cover + preexisting <= 1)
  }

  lemma {:induction false} NothingOpened(events: seq<Event>, t: int)
    requires MaxDepth(events) == 0 && !HasUnmatched(events)
    ensures EventCover(events, t) == 0
  {
    if events != [] {
      NothingOpened(events[..|events| - 1], t);
      DepthAtMostMax(events[..|events| - 1]);
    }
  }

  /** The peak is a maximum of three numbers, unless all are 0. */
  lemma PeakIsMaximum(peak: int, ordered: seq<Event>, preexisting: nat, active: nat, n: int)
    requires IsLeastPeak(peak, ordered, preexisting, active) && !Explains(0, ordered, preexisting)
    ensures n <= peak <==> n <= MaxDepth(ordered) || n <= Depth(ordered) + preexisting || (HasUnmatched(ordered) && n <= 1)
  {
    var a, b := MaxDepth(ordered), Depth(ordered) + preexisting;
    var m := if a >= b then a else b;
    assert Explains(if HasUnmatched(ordered) && m < 1 then 1 else m, ordered, preexisting);
  }

  lemma PeakSufficesMeans(peak: int, ordered: seq<Event>, preexisting: nat, active: nat, t: int)
    requires IsLeastPeak(peak, ordered, preexisting, active)
    ensures EventCover(ordered, t) + preexisting <= peak <==> PeakSuffices(ordered, preexisting, t)
    ensures preexisting <= peak
  {
    if Explains(0, ordered, preexisting) {
      NothingOpened(ordered, t);
    } else {
      PeakIsMaximum(peak, ordered, preexisting, active, EventCover(ordered, t) + preexisting);
      PeakIsMaximum(peak, ordered, preexisting, active, preexisting);
    }
  }

  /** The peak is at least the number of running sessions throughout the range. */
  ghost predicate IsEnough(peak: int, from: int, to: int, sessionEvents: seq<Event>, activeSessions: seq<Session>) {
    forall t :: from <= t < to ==> Running(from, sessionEvents, activeSessions, t) <= peak
  }

  ghost predicate SufficesAtStarts(from: int, to: int, ordered: seq<Event>, preexisting: nat)
    requires from <= to
  {
    forall u :: u in Starts(ordered, from, to) && u < to ==> PeakSuffices(ordered, preexisting, u)
  }

  /** It is so exactly if at each of the finitely many starts the events and sessions meet the
      condition, in which the peak does not occur. */
  lemma PeakIsEnoughExactlyIf(peak: int, from: int, to: int, sessionEvents: seq<Event>, activeSessions: seq<Session>)
    requires from <= to && IsPeak(peak, from, sessionEvents, activeSessions)
    ensures IsEnough(peak, from, to, sessionEvents, activeSessions)
            <==> SufficesAtStarts(from, to, OrderBy(sessionEvents, ByTimestamp), Count(activeSessions, StartedBefore(from)))
  {
    var ordered := OrderBy(sessionEvents, ByTimestamp);
    var preexisting := Count(activeSessions, StartedBefore(from));
    PeakSufficesMeans(peak, ordered, preexisting, |activeSessions|, from);
    if IsEnough(peak, from, to, sessionEvents, activeSessions) {
      forall u | u in Starts(ordered, from, to) && u < to ensures PeakSuffices(ordered, preexisting, u) {
        assert Running(from, sessionEvents, activeSessions, u) <= peak;
        PeakSufficesMeans(peak, ordered, preexisting, |activeSessions|, u);
      }
    }
    if SufficesAtStarts(from, to, ordered, preexisting) {
      forall u | u in Starts(ordered, from, to) && u < to ensures EventCover(ordered, u) <= peak - preexisting {
        PeakSufficesMeans(peak, ordered, preexisting, |activeSessions|, u);
      }
      forall t | from <= t < to ensures Running(from, sessionEvents, activeSessions, t) <= peak {
        StartsBoundCover(ordered, from, to, t, peak - preexisting);
      }
    }
  }

  /** It need not be: of two sessions from before the range that both ran at instant 5 by their
      reported up times, the peak counts one. */
  lemma PeakMayUndercount()
    ensures var e := Event(10, ExpiredSession, Some(10));
            IsPeak(1, 0, [e, e], []) && Running(0, [e, e], [], 5) == 2
  {
    var e := Event(10, ExpiredSession, Some(10));
    OrderByOfSorted([e, e], ByTimestamp);
    assert [e, e][..1] == [e] && [e][..0] == [];
    assert EventCover([e], 5) == 1;
    assert Depth([e]) == 0 && Depth([e, e]) == 0 && MaxDepth([e]) == 0;
  }

  lemma OneSession(a: Event, b: Event)
    requires a == Event(1, NewSession, None) && b == Event(2, ExpiredSession, None)
    ensures EventCover([a, b], 1) == 1 && Depth([a, b]) == 0 && MaxDepth([a, b]) == 1 && !HasUnmatched([a, b])
  {
    assert [a, b][..1] == [a] && [a][..0] == [];
    assert EventCover([a], 1) == 1 && Depth([a]) == 1 && MaxDepth([a]) == 1 && !HasUnmatched([a]);
  }

  /** Nor without any unmatched expiry: an active session from before the range is added to the
      sessions open at the end, not to those open in between. With one that ran from 1 to 2 the
      peak is one. */
  lemma PeakMissesPreexisting()
    ensures var events := [Event(1, NewSession, None), Event(2, ExpiredSession, None)];
            IsPeak(1, 0, events, [Session(-1, 5)]) && Running(0, events, [Session(-1, 5)], 1) == 2
  {
    var a, b, session := Event(1, NewSession, None), Event(2, ExpiredSession, None), Session(-1, 5);
    OneSession(a, b);
    OrderByOfSorted([a, b], ByTimestamp);
    OnePreexisting(session);
  }

  lemma OnePreexisting(session: Session)
    requires session.startTime < 0
    ensures Count([session], StartedBefore(0)) == 1
  {
    assert [session][..0] == [];
  }

  // ----- the report

  /** How many sessions are online at t, as far as the inputs tell. */
  function SessionsAt(sessionEvents: seq<Event>, activeSessions: seq<Session>, t: int): int {
    EventCover(OrderBy(sessionEvents, ByTimestamp), t) + Count(activeSessions, StartedBy(t))
  }

  ghost function OnlineInstants(from: int, to: int, sessionEvents: seq<Event>, activeSessions: seq<Session>): set<int> {
    set t | from <= t < to && SessionsAt(sessionEvents, activeSessions, t) > 0
  }

  /** What the report promises for a range that is not empty. Uptime is the number of instants
      at which some session is online; online intervals and outages tile the range, so that
      downtime is the sum of the outages; the percentages are exact. */
  ghost predicate Sound(r: Report, sessionEvents: seq<Event>, activeSessions: seq<Session>) {
    && r.uptime == |OnlineInstants(r.from, r.to, sessionEvents, activeSessions)| == TotalDuration(r.online)
    && r.downtime == TotalDuration(r.outages) == r.to - r.from - r.uptime
    && Separated(r.online) && Good(r.online, r.from, r.to) && Tiled(r.from, r.to, r.online, r.outages)
    && (forall t :: r.from <= t < r.to ==> (Covered(r.online, t) <==> SessionsAt(sessionEvents, activeSessions, t) > 0))
    && IsPeak(r.peak, r.from, sessionEvents, activeSessions)
    && SoundPercents(r.uptimePercent, r.downtimePercent, r.uptime, r.downtime, r.to - r.from)
  }

  /** At an instant with an active session that started by then the report is online, whenever the
      session was last seen; it is online at no instant without such a session or one that the
      events report. */
  ghost predicate ActiveThroughout(r: Report, sessionEvents: seq<Event>, activeSessions: seq<Session>) {
    forall t :: r.from <= t < r.to ==>
      (Covered(r.online, t) <==>
        || (exists i :: 0 <= i < |activeSessions| && activeSessions[i].startTime <= t)
        || EventCover(OrderBy(sessionEvents, ByTimestamp), t) > 0)
  }

  predicate SoundPercents(uptimePercent: real, downtimePercent: real, uptime: int, downtime: int, range: int) {
    && 0.0 <= uptimePercent <= 100.0 && 0.0 <= downtimePercent <= 100.0
    && uptimePercent * range as real == uptime as real * 100.0
    && downtimePercent * range as real == downtime as real * 100.0
  }

  lemma CoveredIsOnline(from: int, to: int, sessionEvents: seq<Event>, activeSessions: seq<Session>,
                        built: seq<Interval>, merged: seq<Interval>)
    requires forall t :: from <= t < to ==> Cover(built, t) == SessionsAt(sessionEvents, activeSessions, t)
    requires forall t :: Covered(merged, t) <==> Covered(built, t)
    ensures forall t :: from <= t < to ==> (Covered(merged, t) <==> SessionsAt(sessionEvents, activeSessions, t) > 0)
    ensures CoveredInstants(merged, from, to) == OnlineInstants(from, to, sessionEvents, activeSessions)
  {
    forall t | from <= t < to ensures Covered(merged, t) <==> SessionsAt(sessionEvents, activeSessions, t) > 0 {
      CoverPositive(built, t);
    }
  }

  /** The whole report. The cap on the uptime is in the code, but the uptime never exceeds the
      range, so it never fires. */
  method Calculate(from: int, to: int, sessionEvents: seq<Event>, activeSessions: seq<Session>) returns (result: Result)
    ensures result.ArgumentError? <==> to < from
    ensures from == to ==> result == Calculated(Report(from, to, 0, 0, 0.0, 0.0, 0, [], []))
    ensures from < to ==> result.report.from == from && result.report.to == to
    ensures from < to ==> Sound(result.report, sessionEvents, activeSessions)
    ensures from < to ==> ActiveThroughout(result.report, sessionEvents, activeSessions)
  {
    if to < from {
      return ArgumentError;
    }
    var range := to - from;
    if range <= 0 {
      return Calculated(Report(from, to, 0, 0, 0.0, 0.0, 0, [], []));
    }
    var sessionIntervals := BuildSessionIntervals(from, to, sessionEvents, activeSessions);
    var peak := ComputePeakConcurrentSessions(from, sessionEvents, activeSessions);
    var intervals := MergeIntervals(sessionIntervals, from, to);
    CoveredIsOnline(from, to, sessionEvents, activeSessions, sessionIntervals, intervals);
    TotalIsInstants(intervals, from, to);
    UptimeInRange(intervals, from, to);
    var uptime := SumDurations(intervals);
    if uptime > range {
      uptime := range;
    }
    var downtime := range - uptime;
    var uptimePercent, downtimePercent := Percentages(uptime, range);
    var outages := BuildOutages(from, to, intervals);
    result := Calculated(Report(from, to, uptime, downtime, uptimePercent, downtimePercent, peak, intervals, outages));
    OnlineMeans(result.report, sessionEvents, activeSessions);
  }

  lemma OnlineMeans(r: Report, sessionEvents: seq<Event>, activeSessions: seq<Session>)
    requires forall t :: r.from <= t < r.to ==> (Covered(r.online, t) <==> SessionsAt(sessionEvents, activeSessions, t) > 0)
    ensures ActiveThroughout(r, sessionEvents, activeSessions)
  {
    OrderByIsOrdered(sessionEvents);
    forall t | r.from <= t < r.to
      ensures Covered(r.online, t) <==>
        || (exists i :: 0 <= i < |activeSessions| && activeSessions[i].startTime <= t)
        || EventCover(OrderBy(sessionEvents, ByTimestamp), t) > 0
    {
      CountIs(activeSessions, StartedBy(t));
      CoverNotNegative(OrderBy(sessionEvents, ByTimestamp), t);
    }
  }

  method SumDurations(intervals: seq<Interval>) returns (uptime: int)
    ensures uptime == TotalDuration(intervals)
  {
    uptime := 0;
    for i := 0 to |intervals|
      invariant uptime == TotalDuration(intervals[..i])
    {
      assert intervals[..i + 1][..i] == intervals[..i];
      uptime := uptime + (intervals[i].end - intervals[i].start);
    }
    assert intervals[..|intervals|] == intervals;
  }

  /** The cap on the uptime never fires. */
  lemma {:induction false} UptimeInRange(ivs: seq<Interval>, from: int, to: int)
    requires Separated(ivs) && Within(ivs, from, to)
    ensures 0 <= TotalDuration(ivs)
    ensures from <= to ==> TotalDuration(ivs) <= to - from
  {
    if ivs != [] {
      UptimeInRange(ivs[..|ivs| - 1], from, ivs[|ivs| - 1].start);
    }
  }

  method Percentages(uptime: int, range: int) returns (uptimePercent: real, downtimePercent: real)
    requires 0 <= uptime <= range && 0 < range
    ensures SoundPercents(uptimePercent, downtimePercent, uptime, range - uptime, range)
  {
    uptimePercent := uptime as real / range as real * 100.0;
    downtimePercent := 100.0 - uptimePercent;
    ghost var r := range as real;
    ghost var q := uptime as real / r;
    assert q * r == uptime as real;
    assert 0.0 <= q <= 1.0;
    assert q * 100.0 * r == uptime as real * 100.0;
  }
}
