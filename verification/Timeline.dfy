/** Binary searches over the ranges and the events of a timeline, and what the windows they give hold,
    compared with a linear filter. */
module Timeline {

  datatype Range = Range(start: real, end: real)

  datatype Event = Event(at: real)

  predicate Holds(r: Range, key: real) { r.start <= key <= r.end }

  // The range has a point in common with the view.
  predicate Meets(r: Range, start: real, end: real) { r.start <= end && start <= r.end }

  // Sorted ranges that do not overlap; one may start where the one before it ends.
  ghost predicate Sorted(ranges: seq<Range>) {
    && (forall i | 0 <= i < |ranges| :: ranges[i].start <= ranges[i].end)
    && (forall i, j | 0 <= i < j < |ranges| :: ranges[i].end <= ranges[j].start)
  }

  ghost predicate Hit(ranges: seq<Range>, key: real) {
    exists i :: 0 <= i < |ranges| && Holds(ranges[i], key)
  }

  ghost predicate Increasing(events: seq<Event>) {
    forall i, j | 0 <= i < j < |events| :: events[i].at < events[j].at
  }

  // A slice whose bounds are cut to the list, empty when they cross.
  function Slice<T>(s: seq<T>, lo: nat, hi: nat): seq<T> {
    var to := if hi <= |s| then hi else |s|;
    if lo <= to then s[lo..to] else []
  }

  // ------------------------------------------------------------------ the linear filters

  function RangesInView(ranges: seq<Range>, start: real, end: real): seq<Range> {
    if ranges == [] then []
    else (if Meets(ranges[0], start, end) then [ranges[0]] else []) + RangesInView(ranges[1..], start, end)
  }

  function EventsInView(events: seq<Event>, start: real, end: real): seq<Event> {
    if events == [] then []
    else (if start <= events[0].at <= end then [events[0]] else []) + EventsInView(events[1..], start, end)
  }

  // A window that holds exactly the ranges that meet the view is the filtered list.
  lemma {:induction false} WindowIsFilter(ranges: seq<Range>, start: real, end: real, lo: nat, hi: nat)
    requires lo <= hi <= |ranges|
    requires forall k | 0 <= k < |ranges| :: Meets(ranges[k], start, end) <==> lo <= k < hi
    ensures RangesInView(ranges, start, end) == ranges[lo..hi]
  {
    if ranges != [] {
      var rest := ranges[1..];
      assert forall k | 0 <= k < |rest| :: rest[k] == ranges[k + 1];
      if lo > 0 {
        WindowIsFilter(rest, start, end, lo - 1, hi - 1);
        assert rest[lo - 1..hi - 1] == ranges[lo..hi];
      } else if hi > 0 {
        assert Meets(ranges[0], start, end);
        WindowIsFilter(rest, start, end, 0, hi - 1);
        assert [ranges[0]] + rest[..hi - 1] == ranges[..hi];
      } else {
        WindowIsFilter(rest, start, end, 0, 0);
      }
    }
  }

  lemma {:induction false} FilterLength(ranges: seq<Range>, start: real, end: real, lo: nat, hi: nat)
    requires lo <= hi <= |ranges|
    requires forall k | lo <= k < hi :: Meets(ranges[k], start, end)
    ensures |RangesInView(ranges, start, end)| >= hi - lo
    ensures |RangesInView(ranges, start, end)| == hi - lo ==>
      forall k | 0 <= k < |ranges| && Meets(ranges[k], start, end) :: lo <= k < hi
  {
    if ranges != [] {
      var rest := ranges[1..];
      assert forall k | 0 <= k < |rest| :: rest[k] == ranges[k + 1];
      FilterLength(rest, start, end, if lo > 0 then lo - 1 else 0, if hi > 0 then hi - 1 else 0);
    }
  }

  lemma {:induction false} FilterMeets(ranges: seq<Range>, start: real, end: real)
    ensures forall k | 0 <= k < |RangesInView(ranges, start, end)| ::
      Meets(RangesInView(ranges, start, end)[k], start, end)
  {
    if ranges != [] { FilterMeets(ranges[1..], start, end); }
  }

  // And only such a window is.
  lemma FilterIffExact(ranges: seq<Range>, start: real, end: real, lo: nat, hi: nat)
    requires lo <= hi <= |ranges|
    ensures ranges[lo..hi] == RangesInView(ranges, start, end) <==> Exactly(ranges, start, end, (lo, hi))
  {
    if Exactly(ranges, start, end, (lo, hi)) {
      WindowIsFilter(ranges, start, end, lo, hi);
    } else if ranges[lo..hi] == RangesInView(ranges, start, end) {
      FilterMeets(ranges, start, end);
      assert forall k | lo <= k < hi :: ranges[k] == ranges[lo..hi][k - lo];
      FilterLength(ranges, start, end, lo, hi);
    }
  }

  lemma {:induction false} EventWindowIsFilter(events: seq<Event>, start: real, end: real, lo: nat, hi: nat)
    requires lo <= hi <= |events|
    requires forall k | 0 <= k < |events| :: start <= events[k].at <= end <==> lo <= k < hi
    ensures EventsInView(events, start, end) == events[lo..hi]
  {
    if events != [] {
      var rest := events[1..];
      assert forall k | 0 <= k < |rest| :: rest[k] == events[k + 1];
      if lo > 0 {
        EventWindowIsFilter(rest, start, end, lo - 1, hi - 1);
        assert rest[lo - 1..hi - 1] == events[lo..hi];
      } else if hi > 0 {
        assert start <= events[0].at <= end;
        EventWindowIsFilter(rest, start, end, 0, hi - 1);
        assert [events[0]] + rest[..hi - 1] == events[..hi];
      } else {
        EventWindowIsFilter(rest, start, end, 0, 0);
      }
    }
  }

  // ------------------------------------------------------------------ ranges

  // The window for the results of the searches for the two ends of the view; -1 stands for a miss.
  function Window(n: nat, s: int, e: int): (w: (nat, nat))
    requires -1 <= s < n && -1 <= e < n
  {
    if s == -1 && e == -1 then (0, 0)
    else if s == -1 then (0, e + 1)
    else if e == -1 then (s, n)
    else (s, e + 1)
  }

  // It goes from the one to the other, and up to the end of the list on a side where only that search missed.
  lemma WindowHolds(n: nat, s: int, e: int, k: nat)
    requires -1 <= s < n && -1 <= e < n
    ensures Window(n, s, e).0 <= k < Window(n, s, e).1
      <==> (s != -1 || e != -1) && s <= k && if e == -1 then k < n else k <= e
  {
  }

  // The result of a search: an index of a range that holds the key, or -1 when none does.
  ghost predicate Found(ranges: seq<Range>, key: real, i: int) {
    if i == -1 then !Hit(ranges, key) else 0 <= i < |ranges| && Holds(ranges[i], key)
  }

  ghost predicate Inside(ranges: seq<Range>, start: real, end: real, w: (nat, nat)) {
    forall k | 0 <= k < |ranges| && Meets(ranges[k], start, end) :: w.0 <= k < w.1
  }

  ghost predicate Exactly(ranges: seq<Range>, start: real, end: real, w: (nat, nat)) {
    forall k | 0 <= k < |ranges| :: Meets(ranges[k], start, end) <==> w.0 <= k < w.1
  }

  ghost predicate NoneMeets(ranges: seq<Range>, start: real, end: real) {
    forall k | 0 <= k < |ranges| :: !Meets(ranges[k], start, end)
  }

  // No range before i ends as late as the key; none after i starts as early.
  predicate FirstHit(ranges: seq<Range>, key: real, i: nat)
    requires i < |ranges|
  {
    i == 0 || ranges[i - 1].end < key
  }

  predicate LastHit(ranges: seq<Range>, key: real, i: nat)
    requires i < |ranges|
  {
    i + 1 == |ranges| || key < ranges[i + 1].start
  }

  lemma FirstHitIff(ranges: seq<Range>, key: real, i: nat)
    requires Sorted(ranges) && i < |ranges| && Holds(ranges[i], key)
    ensures FirstHit(ranges, key, i) <==> forall k | 0 <= k < i :: ranges[k].end < key
    ensures forall k | i <= k < |ranges| :: key <= ranges[k].end
  {
    if FirstHit(ranges, key, i) {
      assert forall k | 0 <= k < i - 1 :: ranges[k].end <= ranges[i - 1].start <= ranges[i - 1].end;
    }
  }

  lemma LastHitIff(ranges: seq<Range>, key: real, i: nat)
    requires Sorted(ranges) && i < |ranges| && Holds(ranges[i], key)
    ensures LastHit(ranges, key, i) <==> forall k | i < k < |ranges| :: key < ranges[k].start
    ensures forall k | 0 <= k <= i :: ranges[k].start <= key
  {
    if LastHit(ranges, key, i) {
      assert forall k | i + 1 < k < |ranges| :: ranges[i + 1].start <= ranges[i + 1].end <= ranges[k].start;
    }
  }

  // Each search that hits stops at the outermost of the ranges that hold its key.
  predicate Outermost(ranges: seq<Range>, start: real, end: real, s: int, e: int)
    requires -1 <= s < |ranges| && -1 <= e < |ranges|
  {
    (s == -1 || FirstHit(ranges, start, s)) && (e == -1 || LastHit(ranges, end, e))
  }

  /** The window misses no range that meets the view, exactly when an end of the view is a hit and the
      neighbour of a range found does not hold the same end too, or no range meets the view at all: a view
      whose two ends fall between ranges gets an empty window. */
  lemma WindowInsideIff(ranges: seq<Range>, start: real, end: real, s: int, e: int)
    requires Sorted(ranges) && start <= end && Found(ranges, start, s) && Found(ranges, end, e)
    ensures Inside(ranges, start, end, Window(|ranges|, s, e))
      <==> if s == -1 && e == -1 then NoneMeets(ranges, start, end) else Outermost(ranges, start, end, s, e)
  {
    if s >= 0 { FirstHitIff(ranges, start, s); }
    if e >= 0 { LastHitIff(ranges, end, e); }
  }

  // An end that is no hit has no range beyond it.
  predicate NothingBeyond(ranges: seq<Range>, start: real, end: real, s: int, e: int)
    requires ranges != []
  {
    (s == -1 ==> start <= ranges[0].end) && (e == -1 ==> ranges[|ranges| - 1].start <= end)
  }

  /** The window holds exactly the ranges that meet the view, exactly when, besides, no range lies beyond
      an end of the view that is not a hit. */
  lemma WindowExactIff(ranges: seq<Range>, start: real, end: real, s: int, e: int)
    requires Sorted(ranges) && start <= end && Found(ranges, start, s) && Found(ranges, end, e)
    ensures Exactly(ranges, start, end, Window(|ranges|, s, e))
      <==> if s == -1 && e == -1 then NoneMeets(ranges, start, end)
           else Outermost(ranges, start, end, s, e) && NothingBeyond(ranges, start, end, s, e)
  {
    var n := |ranges|;
    if s >= 0 { FirstHitIff(ranges, start, s); }
    if e >= 0 { LastHitIff(ranges, end, e); }
    if n > 0 {
      assert forall k | 0 < k < n :: ranges[0].end <= ranges[k].start <= ranges[k].end;
      assert forall k | 0 <= k < n - 1 :: ranges[k].start <= ranges[k].end <= ranges[n - 1].start;
    }
  }

  // At most one range holds the key: it is not an end that two ranges share.
  ghost predicate Unshared(ranges: seq<Range>, key: real) {
    forall i, j | 0 <= i < j < |ranges| :: !(Holds(ranges[i], key) && Holds(ranges[j], key))
  }

  lemma UnsharedIsOutermost(ranges: seq<Range>, key: real, i: nat)
    requires Sorted(ranges) && Unshared(ranges, key) && i < |ranges| && Holds(ranges[i], key)
    ensures FirstHit(ranges, key, i) && LastHit(ranges, key, i)
  {
    assert i > 0 ==> !Holds(ranges[i - 1], key);
    assert i + 1 < |ranges| ==> !Holds(ranges[i + 1], key);
  }

  lemma SomeFound(ranges: seq<Range>, key: real) returns (i: int)
    ensures Found(ranges, key, i)
  {
    if Hit(ranges, key) { i :| 0 <= i < |ranges| && Holds(ranges[i], key); } else { i := -1; }
  }

  ghost predicate AlwaysInside(ranges: seq<Range>, start: real, end: real) {
    forall s, e | Found(ranges, start, s) && Found(ranges, end, e) :: Inside(ranges, start, end, Window(|ranges|, s, e))
  }

  /** Whichever of two ranges that share an end the searches stop at, the window misses no range that meets
      the view, exactly when an end of the view is a hit or no range meets it, and no end is shared. */
  lemma AlwaysInsideIff(ranges: seq<Range>, start: real, end: real)
    requires Sorted(ranges) && start <= end
    ensures AlwaysInside(ranges, start, end)
      <==> && (Hit(ranges, start) || Hit(ranges, end) || NoneMeets(ranges, start, end))
           && Unshared(ranges, start) && Unshared(ranges, end)
  {
    var s := SomeFound(ranges, start);
    var e := SomeFound(ranges, end);
    if !Unshared(ranges, start) {
      var i, j :| 0 <= i < j < |ranges| && Holds(ranges[i], start) && Holds(ranges[j], start);
      assert Found(ranges, start, j) && Meets(ranges[i], start, end);
      assert !Inside(ranges, start, end, Window(|ranges|, j, e));
    } else if !Unshared(ranges, end) {
      var i, j :| 0 <= i < j < |ranges| && Holds(ranges[i], end) && Holds(ranges[j], end);
      assert Found(ranges, end, i) && Meets(ranges[j], start, end);
      assert !Inside(ranges, start, end, Window(|ranges|, s, i));
    } else {
      WindowInsideIff(ranges, start, end, s, e);
      forall s, e | Found(ranges, start, s) && Found(ranges, end, e)
        ensures (s == -1 <==> !Hit(ranges, start)) && (e == -1 <==> !Hit(ranges, end))
        ensures Outermost(ranges, start, end, s, e)
        ensures Hit(ranges, start) || Hit(ranges, end) ==> Inside(ranges, start, end, Window(|ranges|, s, e))
      {
        if s >= 0 { UnsharedIsOutermost(ranges, start, s); }
        if e >= 0 { UnsharedIsOutermost(ranges, end, e); }
        WindowInsideIff(ranges, start, end, s, e);
      }
    }
  }

  // No range lies wholly before the view, or wholly after it, where that end of the view is not a hit.
  ghost predicate CleanEnds(ranges: seq<Range>, start: real, end: real) {
    && (Hit(ranges, start) || forall k | 0 <= k < |ranges| :: start <= ranges[k].end)
    && (Hit(ranges, end) || forall k | 0 <= k < |ranges| :: ranges[k].start <= end)
  }

  // The windows for any results of the searches, where some end is a hit and no end is shared.
  lemma UnsharedWindow(ranges: seq<Range>, start: real, end: real, s: int, e: int)
    requires Sorted(ranges) && start <= end && Found(ranges, start, s) && Found(ranges, end, e)
    requires Unshared(ranges, start) && Unshared(ranges, end) && (Hit(ranges, start) || Hit(ranges, end))
    ensures Inside(ranges, start, end, Window(|ranges|, s, e))
    ensures Exactly(ranges, start, end, Window(|ranges|, s, e)) <==> CleanEnds(ranges, start, end)
  {
    if s >= 0 { UnsharedIsOutermost(ranges, start, s); }
    if e >= 0 { UnsharedIsOutermost(ranges, end, e); }
    assert Outermost(ranges, start, end, s, e);
    WindowInsideIff(ranges, start, end, s, e);
    WindowExactIff(ranges, start, end, s, e);
    var n := |ranges|;
    assert forall k | 0 < k < n :: ranges[0].end <= ranges[k].start <= ranges[k].end;
    assert forall k | 0 <= k < n - 1 :: ranges[k].start <= ranges[k].end <= ranges[n - 1].start;
    assert NothingBeyond(ranges, start, end, s, e) <==> CleanEnds(ranges, start, end);
  }

  ghost predicate AlwaysExact(ranges: seq<Range>, start: real, end: real) {
    forall s, e | Found(ranges, start, s) && Found(ranges, end, e) ::
      Exactly(ranges, start, end, Window(|ranges|, s, e))
  }

  /** Whichever of two ranges that share an end the searches stop at, the window holds exactly the ranges
      that meet the view, exactly when no end is a hit and no range meets the view, or some end is a hit, no
      end is shared, and no range lies beyond an end that is not a hit. */
  lemma AlwaysExactIff(ranges: seq<Range>, start: real, end: real)
    requires Sorted(ranges) && start <= end
    ensures AlwaysExact(ranges, start, end)
      <==> if Hit(ranges, start) || Hit(ranges, end)
           then Unshared(ranges, start) && Unshared(ranges, end) && CleanEnds(ranges, start, end)
           else NoneMeets(ranges, start, end)
  {
    AlwaysInsideIff(ranges, start, end);
    var s := SomeFound(ranges, start);
    var e := SomeFound(ranges, end);
    if !(Hit(ranges, start) || Hit(ranges, end)) {
      WindowExactIff(ranges, start, end, -1, -1);
    } else if Unshared(ranges, start) && Unshared(ranges, end) {
      forall s, e | Found(ranges, start, s) && Found(ranges, end, e)
        ensures Exactly(ranges, start, end, Window(|ranges|, s, e)) <==> CleanEnds(ranges, start, end)
      {
        UnsharedWindow(ranges, start, end, s, e);
      }
    } else {
      assert !AlwaysInside(ranges, start, end);
    }
  }

  ghost predicate StrictlyDisjoint(ranges: seq<Range>) {
    Sorted(ranges) && forall i, j | 0 <= i < j < |ranges| :: ranges[i].end < ranges[j].start
  }

  /** On ranges that do not even touch: the window misses nothing exactly when an end is a hit or no range
      meets the view, and it is exact exactly when, besides, no range lies beyond an end that is no hit. */
  lemma DisjointWindows(ranges: seq<Range>, start: real, end: real, s: int, e: int)
    requires StrictlyDisjoint(ranges) && start <= end && Found(ranges, start, s) && Found(ranges, end, e)
    ensures var hit, w := Hit(ranges, start) || Hit(ranges, end), Window(|ranges|, s, e);
      && (Inside(ranges, start, end, w) <==> hit || NoneMeets(ranges, start, end))
      && (Exactly(ranges, start, end, w)
          <==> if hit then CleanEnds(ranges, start, end) else NoneMeets(ranges, start, end))
  {
    assert Unshared(ranges, start) && Unshared(ranges, end);
    if Hit(ranges, start) || Hit(ranges, end) {
      UnsharedWindow(ranges, start, end, s, e);
    } else {
      WindowInsideIff(ranges, start, end, s, e);
      WindowExactIff(ranges, start, end, s, e);
    }
  }

  // Where the binary search stops.
  function Probe(ranges: seq<Range>, key: real, l: nat, u: int): (i: int)
    requires l <= u + 1 <= |ranges|
    ensures i == -1 || (l <= i <= u && Holds(ranges[i], key))
    decreases u - l + 1
  {
    if l > u then -1
    else
      var i := (l + u) / 2;
      if Holds(ranges[i], key) then i
      else if key < ranges[i].start then Probe(ranges, key, l, i - 1)
      else Probe(ranges, key, i + 1, u)
  }

  // One round of the search.
  lemma ProbeOnce(ranges: seq<Range>, key: real, l: nat, u: int)
    requires l <= u < |ranges|
    ensures var i := (l + u) / 2;
      Probe(ranges, key, l, u) ==
        if Holds(ranges[i], key) then i
        else if key < ranges[i].start then Probe(ranges, key, l, i - 1)
        else Probe(ranges, key, i + 1, u)
  {
  }

  lemma {:induction false} ProbeFinds(ranges: seq<Range>, key: real, l: nat, u: int, k: nat)
    requires Sorted(ranges) && l <= k <= u < |ranges| && Holds(ranges[k], key)
    ensures Probe(ranges, key, l, u) != -1
    decreases u - l + 1
  {
    var i := (l + u) / 2;
    if !Holds(ranges[i], key) {
      if key < ranges[i].start {
        assert k < i;
        ProbeFinds(ranges, key, l, i - 1, k);
      } else {
        assert k > i;
        ProbeFinds(ranges, key, i + 1, u, k);
      }
    }
  }

  function SearchResult(ranges: seq<Range>, key: real): (i: int)
    ensures i == -1 || (0 <= i < |ranges| && Holds(ranges[i], key))
  {
    Probe(ranges, key, 0, |ranges| - 1)
  }

  // Of several ranges that hold the key, in whatever order they are, the middle one is found first; of two
  // in the middle the former.
  lemma MiddleIsFirst(ranges: seq<Range>, key: real, m: nat)
    requires m < |ranges| && (|ranges| == 2 * m + 1 || |ranges| == 2 * m + 2) && Holds(ranges[m], key)
    ensures SearchResult(ranges, key) == m
  {
    ProbeOnce(ranges, key, 0, |ranges| - 1);
  }

  lemma SearchFinds(ranges: seq<Range>, key: real)
    requires Sorted(ranges)
    ensures Found(ranges, key, SearchResult(ranges, key))
  {
    if k :| 0 <= k < |ranges| && Holds(ranges[k], key) {
      ProbeFinds(ranges, key, 0, |ranges| - 1, k);
    }
  }

  /** The search can stop at the later of two ranges that share an end, and the window then misses the
      earlier one: the middle one of three adjacent ranges is found for its own start. */
  lemma SharedEndMissed(a: real, b: real, c: real, d: real, end: real)
    requires a <= b <= c <= d && b <= end
    ensures var ranges := [Range(a, b), Range(b, c), Range(c, d)];
      && Sorted(ranges) && SearchResult(ranges, b) == 1
      && !Inside(ranges, b, end, Window(3, 1, SearchResult(ranges, end)))
  {
    var ranges := [Range(a, b), Range(b, c), Range(c, d)];
    assert Meets(ranges[0], b, end);
  }

  lemma WindowOrdered(ranges: seq<Range>, start: real, end: real)
    requires Sorted(ranges) && start <= end
    ensures var w := Window(|ranges|, SearchResult(ranges, start), SearchResult(ranges, end)); w.0 <= w.1 <= |ranges|
  {
    var s, e := SearchResult(ranges, start), SearchResult(ranges, end);
    if s >= 0 && e >= 0 && s > e {
      assert ranges[e].end <= ranges[s].start;
    }
  }

  class TimelineDataRange {
    var ranges: seq<Range>

    constructor ()
      ensures ranges == []
    {
      ranges := [];
    }

    method AddRange(r: Range)
      modifies this
      ensures ranges == old(ranges) + [r]
    {
      ranges := ranges + [r];
    }

    // What it finds holds the key; on sorted ranges it finds one whenever there is one.
    method Search(key: real) returns (i: int)
      ensures i == SearchResult(ranges, key)
      ensures Sorted(ranges) ==> Found(ranges, key, i)
    {
      if Sorted(ranges) { SearchFinds(ranges, key); }
      ghost var result := SearchResult(ranges, key);
      var l, u := 0, |ranges| - 1;
      while l <= u
        invariant 0 <= l <= u + 1 <= |ranges|
        invariant Probe(ranges, key, l, u) == result
      {
        ProbeOnce(ranges, key, l, u);
        i := (l + u) / 2;
        if key >= ranges[i].start && key <= ranges[i].end {
          return i;
        } else if key < ranges[i].start {
          u := i - 1;
        } else {
          l := i + 1;
        }
      }
      return -1;
    }

    method GetRangesBounds(start: real, end: real) returns (lo: nat, hi: nat)
      ensures (lo, hi) == Window(|ranges|, SearchResult(ranges, start), SearchResult(ranges, end))
      ensures Sorted(ranges) && start <= end ==>
        var s, e := SearchResult(ranges, start), SearchResult(ranges, end);
        && lo <= hi <= |ranges|
        && (Inside(ranges, start, end, (lo, hi))
            <==> if s == -1 && e == -1 then NoneMeets(ranges, start, end) else Outermost(ranges, start, end, s, e))
        && (Exactly(ranges, start, end, (lo, hi))
            <==> if s == -1 && e == -1 then NoneMeets(ranges, start, end)
                 else Outermost(ranges, start, end, s, e) && NothingBeyond(ranges, start, end, s, e))
    {
      var s := Search(start);
      var e := Search(end);
      if Sorted(ranges) && start <= end {
        WindowInsideIff(ranges, start, end, s, e);
        WindowExactIff(ranges, start, end, s, e);
        WindowOrdered(ranges, start, end);
      }
      if s == -1 && e == -1 {
        return 0, 0;
      } else if s == -1 {
        return 0, e + 1;
      } else if e == -1 {
        return s, |ranges|;
      } else {
        return s, e + 1;
      }
    }

    /** The binary searches give the list a linear filter would, exactly when both ends are misses and no
        range meets the view, or the searches stop at the outermost ranges and nothing lies beyond an end
        that is a miss. */
    method GetRanges(start: real, end: real) returns (window: seq<Range>)
      ensures var w := Window(|ranges|, SearchResult(ranges, start), SearchResult(ranges, end));
        window == if w.0 <= w.1 then ranges[w.0..w.1] else []
      ensures Sorted(ranges) && start <= end ==>
        var s, e := SearchResult(ranges, start), SearchResult(ranges, end);
        && (window == RangesInView(ranges, start, end)
            <==> if s == -1 && e == -1 then NoneMeets(ranges, start, end)
                 else Outermost(ranges, start, end, s, e) && NothingBeyond(ranges, start, end, s, e))
    {
      var s := Search(start);
      var e := Search(end);
      if s == -1 && e == -1 {
        window := [];
      } else if s == -1 {
        window := Slice(ranges, 0, e + 1);
      } else if e == -1 {
        window := Slice(ranges, s, |ranges|);
      } else {
        window := Slice(ranges, s, e + 1);
      }
      if Sorted(ranges) && start <= end {
        WindowExactIff(ranges, start, end, s, e);
        WindowOrdered(ranges, start, end);
        ghost var w := Window(|ranges|, s, e);
        FilterIffExact(ranges, start, end, w.0, w.1);
      }
    }
  }

  // ------------------------------------------------------------------ events

  // Where the binary search for an event stops.
  function EventProbe(events: seq<Event>, key: real, l: nat, u: int): (i: nat)
    requires l <= u + 1 <= |events|
    ensures l <= i <= u + 1
    decreases u - l + 1
  {
    if l > u then l
    else
      var i := (l + u) / 2;
      if key == events[i].at then i
      else if key < events[i].at then EventProbe(events, key, l, i - 1)
      else EventProbe(events, key, i + 1, u)
  }

  function EventResult(events: seq<Event>, key: real): (i: nat)
    ensures i <= |events|
  {
    EventProbe(events, key, 0, |events| - 1)
  }

  // One round of the search.
  lemma EventProbeOnce(events: seq<Event>, key: real, l: nat, u: int)
    requires l <= u < |events|
    ensures var i := (l + u) / 2;
      EventProbe(events, key, l, u) ==
        if key == events[i].at then i
        else if key < events[i].at then EventProbe(events, key, l, i - 1)
        else EventProbe(events, key, i + 1, u)
  {
  }

  lemma {:induction false} EventProbeAt(events: seq<Event>, key: real, l: nat, u: int, k: nat)
    requires Increasing(events) && l <= u + 1 <= |events| && k < |events|
    requires (k < l ==> events[k].at < key) && (u < k ==> key < events[k].at)
    ensures if k < EventProbe(events, key, l, u) then events[k].at < key else key <= events[k].at
    decreases u - l + 1
  {
    if l <= u {
      var i := (l + u) / 2;
      EventProbeOnce(events, key, l, u);
      if key < events[i].at {
        EventProbeAt(events, key, l, i - 1, k);
      } else if key > events[i].at {
        EventProbeAt(events, key, i + 1, u, k);
      }
    }
  }

  // The first i events come before the key, and no other does.
  ghost predicate CountBefore(events: seq<Event>, key: real, i: nat) {
    && i <= |events|
    && (forall k | 0 <= k < i :: events[k].at < key)
    && (forall k | i <= k < |events| :: key <= events[k].at)
  }

  lemma EventResultCounts(events: seq<Event>, key: real)
    requires Increasing(events)
    ensures CountBefore(events, key, EventResult(events, key))
  {
    forall k: nat | k < |events|
      ensures if k < EventResult(events, key) then events[k].at < key else key <= events[k].at
    {
      EventProbeAt(events, key, 0, |events| - 1, k);
    }
  }

  // In whatever order the events are, one at the key in the middle is found first; of two there the former.
  lemma MiddleEventIsFirst(events: seq<Event>, key: real, m: nat)
    requires m < |events| && (|events| == 2 * m + 1 || |events| == 2 * m + 2) && events[m].at == key
    ensures EventResult(events, key) == m
  {
    EventProbeOnce(events, key, 0, |events| - 1);
  }

  // The window is the events inside the view and the next event, if there is one and the end is not an event.
  lemma EventsUpToNext(events: seq<Event>, start: real, end: real, s: nat, e: nat) returns (next: nat)
    requires Increasing(events) && start <= end && CountBefore(events, start, s) && CountBefore(events, end, e)
    ensures next <= |events| && IsNext(events, end, next)
    ensures Slice(events, s, e + 1)
      == EventsInView(events, start, end) + events[next..if next < |events| then next + 1 else next]
  {
    var hi: nat := if e < |events| && events[e].at == end then e + 1 else e;
    next := if e < |events| && events[e].at > end then e else |events|;
    EventWindowIsFilter(events, start, end, s, hi);
  }

  class TimelineEvent {
    var events: seq<Event>

    constructor ()
      ensures events == []
    {
      events := [];
    }

    method AddEvent(e: Event)
      modifies this
      ensures events == old(events) + [e]
    {
      events := events + [e];
    }

    // On increasing events, the number of events before the key: its own index if it is there.
    method Search(key: real) returns (i: nat)
      ensures i == EventResult(events, key)
      ensures Increasing(events) ==> CountBefore(events, key, i)
    {
      if Increasing(events) { EventResultCounts(events, key); }
      ghost var result := EventResult(events, key);
      var l: int, u: int := 0, |events| - 1;
      while l <= u
        invariant 0 <= l <= u + 1 <= |events|
        invariant EventProbe(events, key, l, u) == result
      {
        EventProbeOnce(events, key, l, u);
        i := (l + u) / 2;
        assert l <= i <= u;
        if key == events[i].at {
          return;
        } else if key < events[i].at {
          u := i - 1;
        } else {
          l := i + 1;
        }
      }
      i := l;
    }

    /** For increasing events the window is the events inside the view, and after them the next event when
        there is one and the end of the view is not itself an event. */
    method GetEvents(start: real, end: real) returns (window: seq<Event>)
      ensures window == Slice(events, EventResult(events, start), EventResult(events, end) + 1)
      ensures Increasing(events) && start <= end ==>
        exists next :: 0 <= next <= |events| && IsNext(events, end, next)
          && window == EventsInView(events, start, end) + events[next..if next < |events| then next + 1 else next]
    {
      var s := Search(start);
      var e := Search(end);
      window := Slice(events, s, e + 1);
      if Increasing(events) && start <= end {
        ghost var next := EventsUpToNext(events, start, end, s, e);
      }
    }
  }

  // The event that follows the view and shows in its window: the first one later than the end, unless the
  // end is an event; the number of events stands for none.
  ghost predicate IsNext(events: seq<Event>, end: real, next: nat) {
    && next <= |events|
    && (next < |events| ==> events[next].at > end && forall k | 0 <= k < next :: events[k].at < end)
    && (next == |events| ==>
          (exists k :: 0 <= k < |events| && events[k].at == end) || forall k | 0 <= k < |events| :: events[k].at <= end)
  }
}
