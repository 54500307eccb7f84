/**
 Evidence windows.  Times are milliseconds; the log store keeps nanoseconds, and a line carries its
 own time stamp, which parsing truncates to the millisecond.
 */
module EvidenceWindow {
  import opened Common

  const NANOS := 1_000_000   // nanoseconds in a millisecond

  datatype Options = Options(
    triggeredAt: Option<int>,
    windowStart: Option<int>,
    windowEnd: Option<int>,
    lookbackMinutes: Option<int>,
    lookaheadMinutes: Option<int>)

  datatype Window = Window(triggeredAt: int, start: int, end: int)

  function BuildWindow(options: Options, collectedAt: int): Window {
    var triggeredAt := options.triggeredAt.GetOr(collectedAt);
    var start := options.windowStart.GetOr(triggeredAt - options.lookbackMinutes.GetOr(10) * 60 * 1000);
    var requestedEnd := options.windowEnd.GetOr(triggeredAt + options.lookaheadMinutes.GetOr(2) * 60 * 1000);
    Window(triggeredAt, start, if requestedEnd > collectedAt then collectedAt else requestedEnd)
  }

  /** The least whole number of seconds, at least one, that reaches back from `end` to `start`. */
  function SecondsBetween(start: int, end: int): (s: int)
    ensures s >= 1 && s * 1000 >= end - start
    ensures s > 1 ==> (s - 1) * 1000 < end - start
  {
    var up := -((start - end) / 1000);
    if up > 1 then up else 1
  }

  predicate IsWithin(at: int, w: Window) {
    w.start <= at <= w.end
  }

  // ---------------------------------------------------------------- filtering

  /** The elements that pass, in order. */
  function Filter<T(!new)>(keep: T -> bool, xs: seq<T>): seq<T> {
    if xs == [] then []
    else
      var front := Filter(keep, xs[..|xs| - 1]);
      if keep(xs[|xs| - 1]) then front + [xs[|xs| - 1]] else front
  }

  lemma FilterSnoc<T(!new)>(keep: T -> bool, xs: seq<T>, x: T)
    ensures Filter(keep, xs + [x]) == if keep(x) then Filter(keep, xs) + [x] else Filter(keep, xs)
  {
    assert (xs + [x])[..|xs|] == xs;
  }

  /** A fetch before the filter never adds anything. */
  lemma {:induction false} FilterShrinks<T(!new)>(keep: T -> bool, fetched: T -> bool, xs: seq<T>)
    ensures |Filter(keep, Filter(fetched, xs))| <= |Filter(keep, xs)|
  {
    if xs != [] {
      var front, x := xs[..|xs| - 1], xs[|xs| - 1];
      FilterShrinks(keep, fetched, front);
      FilterSnoc(keep, Filter(fetched, front), x);
    }
  }

  lemma SameLast<T>(a: seq<T>, b: seq<T>, x: T)
    ensures a + [x] == b + [x] <==> a == b
  {
    if a + [x] == b + [x] {
      assert (a + [x])[..|a|] == a && (b + [x])[..|b|] == b;
    }
  }

  /** It loses nothing exactly when everything the filter keeps was fetched. */
  lemma {:induction false} FilterFetchedIff<T(!new)>(keep: T -> bool, fetched: T -> bool, xs: seq<T>)
    ensures Filter(keep, Filter(fetched, xs)) == Filter(keep, xs) <==> forall x :: x in xs && keep(x) ==> fetched(x)
  {
    if xs != [] {
      var front, x := xs[..|xs| - 1], xs[|xs| - 1];
      assert xs == front + [x];
      FilterFetchedIff(keep, fetched, front);
      FilterShrinks(keep, fetched, front);
      FilterSnoc(keep, Filter(fetched, front), x);
      FilterSnoc(keep, front, x);
      FilterSnoc(fetched, front, x);
      SameLast(Filter(keep, Filter(fetched, front)), Filter(keep, front), x);
      hide Filter;
    }
  }

  /** The places of the elements that pass, increasing. */
  function Places<T(!new)>(keep: T -> bool, xs: seq<T>): (at: seq<nat>)
    ensures forall i :: 0 <= i < |at| ==> at[i] < |xs|
    ensures forall i, j :: 0 <= i < j < |at| ==> at[i] < at[j]
  {
    if xs == [] then []
    else
      var front := Places(keep, xs[..|xs| - 1]);
      if keep(xs[|xs| - 1]) then front + [|xs| - 1] else front
  }

  /** Every element that passes, and no other, has its place. */
  lemma {:induction false} PlacesOfKept<T(!new)>(keep: T -> bool, xs: seq<T>, k: nat)
    requires k < |xs|
    ensures k in Places(keep, xs) <==> keep(xs[k])
  {
    var n := |xs| - 1;
    if k < n {
      PlacesOfKept(keep, xs[..n], k);
    } else {
      assert n !in Places(keep, xs[..n]);
    }
  }

  /** A filter's result is what stands at those places: with PlacesOfKept, what passes in the original order. */
  lemma {:induction false} KeptInOrder<T(!new)>(keep: T -> bool, xs: seq<T>)
    ensures |Filter(keep, xs)| == |Places(keep, xs)|
    ensures forall i :: 0 <= i < |Filter(keep, xs)| ==> Filter(keep, xs)[i] == xs[Places(keep, xs)[i]]
  {
    if xs != [] {
      KeptInOrder(keep, xs[..|xs| - 1]);
    }
  }

  lemma {:induction false} KeptIff<T(!new)>(keep: T -> bool, xs: seq<T>, x: T)
    ensures x in Filter(keep, xs) <==> x in xs && keep(x)
  {
    if xs != [] {
      assert xs == xs[..|xs| - 1] + [xs[|xs| - 1]];
      KeptIff(keep, xs[..|xs| - 1], x);
    }
  }

  // ---------------------------------------------------------------- logs

  /** A log line: the time the store keeps for it, the stamp its text starts with (if it parses), the rest. */
  datatype Line = Line(at: int, stamp: Option<int>, text: string)

  function InWindow(w: Window): Line -> bool {
    (l: Line) => l.stamp.None? || IsWithin(l.stamp.value, w)
  }

  /** What a fetch of the last `sinceSeconds` seconds, made at `now`, returns. */
  function Fetched(now: int, sinceSeconds: int): Line -> bool {
    (l: Line) => l.at >= (now - sinceSeconds * 1000) * NANOS
  }

  /**
   The evidence: the length of the fetch is computed at `collectedAt`, the fetch is made at `fetchedAt`,
   and what lies in the window is kept.
   */
  function CollectLogs(options: Options, collectedAt: int, fetchedAt: int, log: seq<Line>): seq<Line> {
    var w := BuildWindow(options, collectedAt);
    Filter(InWindow(w), Filter(Fetched(fetchedAt, SecondsBetween(w.start, collectedAt)), log))
  }

  /** How much later the fetch may be made: what rounding up to whole seconds adds. */
  function Slack(w: Window, collectedAt: int): (ms: int)
    ensures ms >= 0
    ensures w.start <= collectedAt - 1000 ==> ms < 1000
  {
    SecondsBetween(w.start, collectedAt) * 1000 - (collectedAt - w.start)
  }

  /** Stamps that parse are the stored times, to the millisecond. */
  ghost predicate Stamped(log: seq<Line>) {
    forall l :: l in log && l.stamp.Some? ==> l.stamp.value == l.at / NANOS
  }

  /** A line is kept exactly when it carries no stamp or its stamp lies in the window. */
  lemma LineKeptIff(log: seq<Line>, w: Window, l: Line)
    ensures l in Filter(InWindow(w), log) <==> l in log && (l.stamp.Some? ==> w.start <= l.stamp.value <= w.end)
  {
    KeptIff(InWindow(w), log, l);
  }

  /** The window never ends after the evidence was collected, and is the requested one up to then. */
  lemma WindowEndsByCollection(options: Options, collectedAt: int, at: int)
    ensures BuildWindow(options, collectedAt).end <= collectedAt
    ensures var triggeredAt := if options.triggeredAt.Some? then options.triggeredAt.value else collectedAt;
            IsWithin(at, BuildWindow(options, collectedAt)) <==>
            && at <= collectedAt
            && (if options.windowStart.Some? then options.windowStart.value <= at
                else if options.lookbackMinutes.Some? then triggeredAt - 60_000 * options.lookbackMinutes.value <= at
                else triggeredAt - 600_000 <= at)
            && (if options.windowEnd.Some? then at <= options.windowEnd.value
                else if options.lookaheadMinutes.Some? then at <= triggeredAt + 60_000 * options.lookaheadMinutes.value
                else at <= triggeredAt + 120_000)
  {
  }

  /** A fetch within the slack returns every time in the window. */
  lemma WindowIsFetched(w: Window, collectedAt: int, fetchedAt: int, l: Line)
    requires IsWithin(l.at / NANOS, w) && fetchedAt - collectedAt <= Slack(w, collectedAt)
    ensures Fetched(fetchedAt, SecondsBetween(w.start, collectedAt))(l)
  {
    assert l.at >= w.start * NANOS;
  }

  /** A fetch within the slack loses nothing exactly when every line without a stamp was fetched. */
  lemma WindowCompleteIff(options: Options, collectedAt: int, fetchedAt: int, log: seq<Line>)
    requires Stamped(log)
    requires fetchedAt - collectedAt <= Slack(BuildWindow(options, collectedAt), collectedAt)
    ensures var w := BuildWindow(options, collectedAt);
            CollectLogs(options, collectedAt, fetchedAt, log) == Filter(InWindow(w), log) <==>
            forall l :: l in log && l.stamp.None? ==> Fetched(fetchedAt, SecondsBetween(w.start, collectedAt))(l)
  {
    var w := BuildWindow(options, collectedAt);
    var fetched := Fetched(fetchedAt, SecondsBetween(w.start, collectedAt));
    FilterFetchedIff(InWindow(w), fetched, log);
    forall l | l in log && l.stamp.Some? && InWindow(w)(l) ensures fetched(l) {
      WindowIsFetched(w, collectedAt, fetchedAt, l);
    }
    assert forall l :: l in log && l.stamp.None? ==> InWindow(w)(l);
  }

  ghost predicate AllStamped(log: seq<Line>) {
    Stamped(log) && forall l :: l in log ==> l.stamp.Some?
  }

  /** Every stamped log is collected completely exactly when the fetch is within the slack (or the window is empty). */
  lemma StampedLogsAreCompleteIff(options: Options, collectedAt: int, fetchedAt: int)
    ensures var w := BuildWindow(options, collectedAt);
            (forall log | AllStamped(log) :: CollectLogs(options, collectedAt, fetchedAt, log) == Filter(InWindow(w), log)) <==>
            w.end < w.start || fetchedAt - collectedAt <= Slack(w, collectedAt)
  {
    var w := BuildWindow(options, collectedAt);
    if w.end < w.start || fetchedAt - collectedAt <= Slack(w, collectedAt) {
      forall log | AllStamped(log) ensures CollectLogs(options, collectedAt, fetchedAt, log) == Filter(InWindow(w), log) {
        if w.end < w.start {
          FilterFetchedIff(InWindow(w), Fetched(fetchedAt, SecondsBetween(w.start, collectedAt)), log);
        } else {
          WindowCompleteIff(options, collectedAt, fetchedAt, log);
        }
      }
    } else {
      var log := [Line(w.start * NANOS, Some(w.start), "first")];
      assert AllStamped(log);
      LateFetchMisses(options, collectedAt, fetchedAt, log[0]);
    }
  }

  /** Later than that, a line stamped with the window's start is missed. */
  lemma LateFetchMisses(options: Options, collectedAt: int, fetchedAt: int, first: Line)
    requires var w := BuildWindow(options, collectedAt);
             && w.start <= w.end && fetchedAt - collectedAt > Slack(w, collectedAt)
             && first.at == w.start * NANOS && first.stamp == Some(w.start)
    ensures Filter(InWindow(BuildWindow(options, collectedAt)), [first]) == [first]
    ensures CollectLogs(options, collectedAt, fetchedAt, [first]) == []
  {
    var w := BuildWindow(options, collectedAt);
    FilterSnoc(InWindow(w), [], first);
    FilterSnoc(Fetched(fetchedAt, SecondsBetween(w.start, collectedAt)), [], first);
    assert [] + [first] == [first];
  }

  /** A window that starts after collection asks for one second and keeps only the unstamped lines fetched in it. */
  lemma EmptyWindow(options: Options, collectedAt: int, fetchedAt: int, log: seq<Line>)
    requires BuildWindow(options, collectedAt).start > collectedAt
    ensures SecondsBetween(BuildWindow(options, collectedAt).start, collectedAt) == 1
    ensures CollectLogs(options, collectedAt, fetchedAt, log) == [] <==>
            forall l :: l in log && l.stamp.None? ==> !Fetched(fetchedAt, 1)(l)
  {
    var w := BuildWindow(options, collectedAt);
    var fetched := Fetched(fetchedAt, 1);
    var kept := CollectLogs(options, collectedAt, fetchedAt, log);
    forall l ensures l in kept <==> l in log && fetched(l) && l.stamp.None? {
      KeptIff(fetched, log, l);
      KeptIff(InWindow(w), Filter(fetched, log), l);
    }
    assert kept != [] ==> kept[0] in kept;
  }

  // ---------------------------------------------------------------- events

  /** An entry of the event list: a record with its times, those that parse, or something else. */
  datatype Event =
    | Record(name: string, eventTime: Option<int>, lastTimestamp: Option<int>, firstTimestamp: Option<int>)
    | Malformed(name: string)

  function EventTime(e: Event): Option<int>
    requires e.Record?
  {
    if e.eventTime.Some? then e.eventTime
    else if e.lastTimestamp.Some? then e.lastTimestamp
    else e.firstTimestamp
  }

  function EventInWindow(w: Window): Event -> bool {
    (e: Event) => e.Record? && (EventTime(e).None? || IsWithin(EventTime(e).value, w))
  }

  /** The first of the three times that parses decides; a record with none is kept by every window. */
  lemma EventKeptIff(events: seq<Event>, w: Window, e: Event)
    ensures e in Filter(EventInWindow(w), events) <==>
            && e in events && e.Record?
            && (e.eventTime.Some? ==> IsWithin(e.eventTime.value, w))
            && (e.eventTime.None? && e.lastTimestamp.Some? ==> IsWithin(e.lastTimestamp.value, w))
            && (e.eventTime.None? && e.lastTimestamp.None? && e.firstTimestamp.Some? ==> IsWithin(e.firstTimestamp.value, w))
  {
    KeptIff(EventInWindow(w), events, e);
  }
}
