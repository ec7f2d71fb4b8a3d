/** Grouping the flows of a run into the bursts they belong to, by the configured number of flows of each
    burst. */
module WebTraces {
  import opened Wrappers

  // The figures of a flow in one direction: its first and last times and the packets it lost.
  datatype Flow = Flow(firstTx: int, lastRx: int, lost: int)

  // What is kept of a flow and the flow of its acknowledgements.
  datatype Sample = Sample(start: int, end: int, drops: int)

  type Bursts = seq<seq<Sample>>

  // The number of flow identifiers: every second one from first, below end.
  function IdCount(first: nat, end: nat): (n: nat)
    ensures first + 2 * n >= end
    ensures n > 0 ==> first + 2 * (n - 1) < end
  {
    if end <= first then 0 else (end - first + 1) / 2
  }

  // Both directions of n flows are in the list.
  predicate Present(flows: seq<Flow>, first: nat, n: nat) {
    n > 0 ==> first + 2 * n <= |flows|
  }

  function SampleOf(flows: seq<Flow>, id: nat): Sample
    requires id + 1 < |flows|
  {
    Sample(flows[id].firstTx, flows[id].lastRx, flows[id].lost + flows[id + 1].lost)
  }

  // The samples of the first n flows; each takes two entries of the list.
  function Samples(flows: seq<Flow>, first: nat, n: nat): (r: seq<Sample>)
    requires Present(flows, first, n)
    ensures |r| == n
  {
    if n == 0 then [] else Samples(flows, first, n - 1) + [SampleOf(flows, first + 2 * (n - 1))]
  }

  // ------------------------------------------------------------------ the grouping

  // The closed bursts and the one being filled.
  datatype Grouping = Grouping(closed: Bursts, current: seq<Sample>)

  // One flow; no result stands for a burst that is not configured.
  function Add(counts: map<int, int>, g: Grouping, s: Sample): Option<Grouping> {
    if |g.closed| !in counts then None
    else if |g.current| < counts[|g.closed|] then Some(g.(current := g.current + [s]))
    else Some(Grouping(g.closed + [g.current], [s]))
  }

  function AddAll(counts: map<int, int>, samples: seq<Sample>): Option<Grouping> {
    if samples == [] then Some(Grouping([], []))
    else
      match AddAll(counts, samples[..|samples| - 1])
      case None => None
      case Some(g) => Add(counts, g, samples[|samples| - 1])
  }

  function Group(counts: map<int, int>, samples: seq<Sample>): Option<Bursts> {
    match AddAll(counts, samples)
    case None => None
    case Some(g) => Some(g.closed + [g.current])
  }

  function Flatten(bs: Bursts): seq<Sample> {
    if bs == [] then [] else Flatten(bs[..|bs| - 1]) + bs[|bs| - 1]
  }

  function Drops(samples: seq<Sample>): int {
    if samples == [] then 0 else Drops(samples[..|samples| - 1]) + samples[|samples| - 1].drops
  }

  function BurstDrops(bs: Bursts): int {
    if bs == [] then 0 else BurstDrops(bs[..|bs| - 1]) + Drops(bs[|bs| - 1])
  }

  // The packets lost by n flows and the flows after each of them.
  function LostBothWays(flows: seq<Flow>, first: nat, n: nat): int
    requires Present(flows, first, n)
  {
    if n == 0 then 0
    else
      LostBothWays(flows, first, n - 1) + flows[first + 2 * (n - 1)].lost + flows[first + 2 * (n - 1) + 1].lost
  }

  lemma FlattenAppend(bs: Bursts, b: seq<Sample>)
    ensures Flatten(bs + [b]) == Flatten(bs) + b
    ensures BurstDrops(bs + [b]) == BurstDrops(bs) + Drops(b)
  {
    assert (bs + [b])[..|bs|] == bs;
  }

  lemma DropsAppend(samples: seq<Sample>, s: Sample)
    ensures Drops(samples + [s]) == Drops(samples) + s.drops
  {
    assert (samples + [s])[..|samples|] == samples;
  }

  // Nothing is lost and nothing is moved, and every burst but the first is begun by a flow.
  predicate Keeps(g: Grouping, samples: seq<Sample>) {
    && Flatten(g.closed) + g.current == samples
    && BurstDrops(g.closed) + Drops(g.current) == Drops(samples)
    && (g.closed != [] ==> g.current != [])
    && forall i | 0 < i < |g.closed| :: g.closed[i] != []
  }

  lemma AddKeeps(counts: map<int, int>, g: Grouping, samples: seq<Sample>, s: Sample)
    requires Keeps(g, samples) && Add(counts, g, s).Some?
    ensures Keeps(Add(counts, g, s).value, samples + [s])
  {
    DropsAppend(samples, s);
    if |g.current| < counts[|g.closed|] {
      DropsAppend(g.current, s);
      assert Flatten(g.closed) + (g.current + [s]) == samples + [s];
    } else {
      FlattenAppend(g.closed, g.current);
      DropsAppend([], s);
      assert [] + [s] == [s];
    }
  }

  lemma {:induction false} AddAllKeeps(counts: map<int, int>, samples: seq<Sample>)
    ensures AddAll(counts, samples).Some? ==> Keeps(AddAll(counts, samples).value, samples)
  {
    if samples != [] {
      var front, s := samples[..|samples| - 1], samples[|samples| - 1];
      assert front + [s] == samples;
      AddAllKeeps(counts, front);
      if AddAll(counts, samples).Some? {
        var g := AddAll(counts, front).value;
        assert AddAll(counts, samples) == Add(counts, g, s);
        AddKeeps(counts, g, front, s);
      }
    }
  }

  /** Whatever the configuration, the bursts in order are the flows in order, and their drops add up to the
      drops of the flows. */
  lemma GroupKeepsAll(counts: map<int, int>, samples: seq<Sample>)
    requires Group(counts, samples).Some?
    ensures Flatten(Group(counts, samples).value) == samples
    ensures BurstDrops(Group(counts, samples).value) == Drops(samples)
  {
    AddAllKeeps(counts, samples);
    var g := AddAll(counts, samples).value;
    FlattenAppend(g.closed, g.current);
  }

  lemma {:induction false} DropsAreLosses(flows: seq<Flow>, first: nat, n: nat)
    requires Present(flows, first, n)
    ensures Drops(Samples(flows, first, n)) == LostBothWays(flows, first, n)
  {
    if n > 0 {
      DropsAreLosses(flows, first, n - 1);
      DropsAppend(Samples(flows, first, n - 1), SampleOf(flows, first + 2 * (n - 1)));
    }
  }

  // ------------------------------------------------------------------ what fits into a burst

  // A burst takes the configured number of flows, and a burst after the first at least the flow that began
  // it; one that is not configured takes no more than that.
  function Room(counts: map<int, int>, i: nat): nat {
    var least := if i == 0 then 0 else 1;
    if i in counts && counts[i] > least then counts[i] else least
  }

  function RoomUpTo(counts: map<int, int>, k: nat): nat {
    if k == 0 then 0 else RoomUpTo(counts, k - 1) + Room(counts, k - 1)
  }

  // Every closed burst is configured and full, and the current one is not overfull.
  predicate Filled(counts: map<int, int>, g: Grouping, n: nat) {
    && (forall i | 0 <= i < |g.closed| :: i in counts && |g.closed[i]| == Room(counts, i))
    && |g.current| <= Room(counts, |g.closed|)
    && (|g.closed| > 0 ==> |g.current| > 0)
    && RoomUpTo(counts, |g.closed|) + |g.current| == n
  }

  lemma {:induction false} StaysFilled(counts: map<int, int>, samples: seq<Sample>)
    ensures AddAll(counts, samples).Some? ==> Filled(counts, AddAll(counts, samples).value, |samples|)
  {
    if samples != [] {
      StaysFilled(counts, samples[..|samples| - 1]);
    }
  }

  /** Whatever the configuration, a burst begins only when the one before it is configured and full; together
      with the order of the flows this says which flows are in which burst. */
  lemma FilledInTurn(counts: map<int, int>, samples: seq<Sample>)
    requires Group(counts, samples).Some?
    ensures var bs := Group(counts, samples).value;
      && |bs| > 0
      && (forall i | 0 <= i < |bs| - 1 :: i in counts && |bs[i]| == Room(counts, i))
      && |bs[|bs| - 1]| <= Room(counts, |bs| - 1)
      && (|bs| > 1 ==> |bs[|bs| - 1]| > 0)
  {
    StaysFilled(counts, samples);
  }

  lemma {:induction false} RoomGrows(counts: map<int, int>, i: nat, j: nat)
    requires i <= j
    ensures RoomUpTo(counts, i) <= RoomUpTo(counts, j)
    decreases j
  {
    if i < j { RoomGrows(counts, i, j - 1); }
  }

  /** With bursts configured up to the k-th, the grouping fails exactly when there are more flows than those
      bursts take and one that begins the next. */
  lemma {:induction false} GroupFailsIff(counts: map<int, int>, k: nat, samples: seq<Sample>)
    requires (forall i | 0 <= i < k :: i in counts) && k !in counts
    ensures Group(counts, samples) == None <==> |samples| > RoomUpTo(counts, k) + if k == 0 then 0 else 1
  {
    if samples != [] {
      var front := samples[..|samples| - 1];
      GroupFailsIff(counts, k, front);
      StaysFilled(counts, front);
      StaysFilled(counts, samples);
      if AddAll(counts, front).Some? {
        var w := |AddAll(counts, front).value.closed|;
        assert w <= k by {
          assert w > k ==> k in counts;
        }
        RoomGrows(counts, w + 1, if w < k then k else w + 1);
      }
    }
  }

  // ------------------------------------------------------------------ burst sizes

  // The bursts configured are numbered from 0 to k - 1.
  ghost predicate Configured(counts: map<int, int>, k: nat) {
    k > 0 && forall i :: i in counts <==> 0 <= i < k
  }

  function Total(counts: map<int, int>, k: nat): int
    requires forall i | 0 <= i < k :: i in counts
  {
    if k == 0 then 0 else Total(counts, k - 1) + counts[k - 1]
  }

  predicate ConfiguredSizes(counts: map<int, int>, k: nat, bs: Bursts)
    requires forall i | 0 <= i < k :: i in counts
  {
    |bs| == k && forall i | 0 <= i < k :: |bs[i]| == counts[i]
  }

  // No burst is configured empty, except perhaps the first.
  predicate Sensible(counts: map<int, int>, k: nat)
    requires forall i | 0 <= i < k :: i in counts
  {
    forall i | 0 <= i < k :: counts[i] >= if i == 0 then 0 else 1
  }

  lemma {:induction false} TotalGrows(counts: map<int, int>, k: nat, i: nat, j: nat)
    requires (forall i | 0 <= i < k :: i in counts) && Sensible(counts, k) && 0 < i <= j <= k
    ensures Total(counts, i) + (j - i) <= Total(counts, j)
    decreases j
  {
    if i < j { TotalGrows(counts, k, i, j - 1); }
  }

  // The grouping is on schedule: the closed bursts are full and the current one is not overfull.
  predicate OnSchedule(counts: map<int, int>, k: nat, g: Grouping, n: nat)
    requires forall i | 0 <= i < k :: i in counts
  {
    && |g.closed| < k
    && (forall i | 0 <= i < |g.closed| :: |g.closed[i]| == counts[i])
    && |g.current| <= counts[|g.closed|]
    && Total(counts, |g.closed|) + |g.current| == n
  }

  lemma {:induction false} StaysOnSchedule(counts: map<int, int>, k: nat, samples: seq<Sample>)
    requires Configured(counts, k) && Sensible(counts, k) && |samples| <= Total(counts, k)
    ensures AddAll(counts, samples).Some? && OnSchedule(counts, k, AddAll(counts, samples).value, |samples|)
  {
    if samples != [] {
      var front := samples[..|samples| - 1];
      StaysOnSchedule(counts, k, front);
      var g := AddAll(counts, front).value;
      var w := |g.closed|;
      if |g.current| == counts[w] {
        assert Total(counts, w + 1) == |front| < Total(counts, k);
        assert w + 1 < k;
      }
    }
  }

  lemma {:induction false} SizesAddUp(counts: map<int, int>, k: nat, bs: Bursts)
    requires (forall i | 0 <= i < k :: i in counts) && ConfiguredSizes(counts, k, bs)
    ensures |Flatten(bs)| == Total(counts, k)
  {
    if k > 0 { SizesAddUp(counts, k - 1, bs[..k - 1]); }
  }

  lemma SensibleGivesSizes(counts: map<int, int>, k: nat, samples: seq<Sample>)
    requires Configured(counts, k) && Sensible(counts, k) && Total(counts, k) == |samples|
    ensures Group(counts, samples).Some? && ConfiguredSizes(counts, k, Group(counts, samples).value)
  {
    StaysOnSchedule(counts, k, samples);
    var g := AddAll(counts, samples).value;
    var w := |g.closed|;
    if w + 1 < k {
      TotalGrows(counts, k, w + 1, k);
    }
    assert w + 1 == k;
    assert Total(counts, k) == Total(counts, w) + counts[w];
  }

  lemma SizesAreSensible(counts: map<int, int>, k: nat, samples: seq<Sample>)
    requires Configured(counts, k)
    requires Group(counts, samples).Some? && ConfiguredSizes(counts, k, Group(counts, samples).value)
    ensures Sensible(counts, k) && Total(counts, k) == |samples|
  {
    var bs := Group(counts, samples).value;
    GroupKeepsAll(counts, samples);
    AddAllKeeps(counts, samples);
    SizesAddUp(counts, k, bs);
    forall i | 0 <= i < k
      ensures counts[i] >= if i == 0 then 0 else 1
    {
      assert |bs[i]| == counts[i];
    }
  }

  /** Every burst has exactly its configured size, exactly when the configured sizes are positive (the first
      may be zero) and add up to the number of flows. */
  lemma SizesAsConfiguredIff(counts: map<int, int>, k: nat, samples: seq<Sample>)
    requires Configured(counts, k)
    ensures Group(counts, samples).Some? && ConfiguredSizes(counts, k, Group(counts, samples).value)
      <==> Sensible(counts, k) && Total(counts, k) == |samples|
  {
    if Sensible(counts, k) && Total(counts, k) == |samples| {
      SensibleGivesSizes(counts, k, samples);
    } else if Group(counts, samples).Some? && ConfiguredSizes(counts, k, Group(counts, samples).value) {
      SizesAreSensible(counts, k, samples);
    }
  }

  // ------------------------------------------------------------------ the loop

  function Starts(samples: seq<Sample>): seq<int> { seq(|samples|, i requires 0 <= i < |samples| => samples[i].start) }
  function Ends(samples: seq<Sample>): seq<int> { seq(|samples|, i requires 0 <= i < |samples| => samples[i].end) }
  function DropList(samples: seq<Sample>): seq<int> {
    seq(|samples|, i requires 0 <= i < |samples| => samples[i].drops)
  }

  lemma FiguresAppend(samples: seq<Sample>, s: Sample)
    ensures Starts(samples + [s]) == Starts(samples) + [s.start]
    ensures Ends(samples + [s]) == Ends(samples) + [s.end]
    ensures DropList(samples + [s]) == DropList(samples) + [s.drops]
  {
  }

  // The three parallel lists of lists hold the figures of the bursts.
  ghost predicate Lists(bs: Bursts, starts: seq<seq<int>>, ends: seq<seq<int>>, drops: seq<seq<int>>) {
    && |starts| == |ends| == |drops| == |bs|
    && forall i | 0 <= i < |bs| :: starts[i] == Starts(bs[i]) && ends[i] == Ends(bs[i]) && drops[i] == DropList(bs[i])
  }

  lemma ListsAppend(bs: Bursts, b: seq<Sample>, starts: seq<seq<int>>, ends: seq<seq<int>>, drops: seq<seq<int>>)
    requires Lists(bs, starts, ends, drops)
    ensures Lists(bs + [b], starts + [Starts(b)], ends + [Ends(b)], drops + [DropList(b)])
  {
  }

  // The figures of all bursts, one burst after the other.
  function AllFigures(lists: seq<seq<int>>): seq<int> {
    if lists == [] then [] else AllFigures(lists[..|lists| - 1]) + lists[|lists| - 1]
  }

  lemma FiguresConcat(a: seq<Sample>, b: seq<Sample>)
    ensures Starts(a + b) == Starts(a) + Starts(b)
    ensures Ends(a + b) == Ends(a) + Ends(b)
    ensures DropList(a + b) == DropList(a) + DropList(b)
  {
  }

  lemma {:induction false} FiguresOfBursts(bs: Bursts, starts: seq<seq<int>>, ends: seq<seq<int>>, drops: seq<seq<int>>)
    requires Lists(bs, starts, ends, drops)
    ensures AllFigures(starts) == Starts(Flatten(bs)) && AllFigures(ends) == Ends(Flatten(bs))
    ensures AllFigures(drops) == DropList(Flatten(bs))
  {
    if bs != [] {
      var last := |bs| - 1;
      FiguresOfBursts(bs[..last], starts[..last], ends[..last], drops[..last]);
      FiguresConcat(Flatten(bs[..last]), bs[last]);
    }
  }

  // The k-th figures are those of the k-th flow and of the flow back after it.
  predicate FiguresOf(flows: seq<Flow>, first: nat, n: nat, starts: seq<int>, ends: seq<int>, drops: seq<int>)
    requires Present(flows, first, n)
  {
    && |starts| == |ends| == |drops| == n
    && forall k | 0 <= k < n ::
         && starts[k] == flows[first + 2 * k].firstTx
         && ends[k] == flows[first + 2 * k].lastRx
         && drops[k] == flows[first + 2 * k].lost + flows[first + 2 * k + 1].lost
  }

  lemma {:induction false} SamplesAre(flows: seq<Flow>, first: nat, n: nat)
    requires Present(flows, first, n)
    ensures var s := Samples(flows, first, n); FiguresOf(flows, first, n, Starts(s), Ends(s), DropList(s))
  {
    if n > 0 {
      SamplesAre(flows, first, n - 1);
      FiguresAppend(Samples(flows, first, n - 1), SampleOf(flows, first + 2 * (n - 1)));
    }
  }

  lemma OneMoreFlow(counts: map<int, int>, flows: seq<Flow>, first: nat, k: nat, g: Grouping)
    requires Present(flows, first, k + 1) && AddAll(counts, Samples(flows, first, k)) == Some(g)
    ensures AddAll(counts, Samples(flows, first, k + 1)) == Add(counts, g, SampleOf(flows, first + 2 * k))
  {
    assert Samples(flows, first, k + 1)[..k] == Samples(flows, first, k);
  }

  /** The grouping loop.  No result stands for a missing flow or a burst that is not configured. */
  method LoadWebtrace(flows: seq<Flow>, counts: map<int, int>, first: nat, end: nat)
    returns (ok: bool, starts: seq<seq<int>>, ends: seq<seq<int>>, drops: seq<seq<int>>)
    ensures var n := IdCount(first, end);
      ok <==> Present(flows, first, n) && Group(counts, Samples(flows, first, n)).Some?
    ensures ok ==>
      var n := IdCount(first, end);
      var bursts := Group(counts, Samples(flows, first, n)).value;
      && Lists(bursts, starts, ends, drops) && BurstDrops(bursts) == LostBothWays(flows, first, n)
      && FiguresOf(flows, first, n, AllFigures(starts), AllFigures(ends), AllFigures(drops))
  {
    starts, ends, drops := [], [], [];
    var n := IdCount(first, end);
    var starttimelist, endtimelist, numdroplist: seq<int> := [], [], [];
    var whichwt, countwt := 0, 0;
    ghost var g := Grouping([], []);
    for k := 0 to n
      invariant Present(flows, first, k)
      invariant AddAll(counts, Samples(flows, first, k)) == Some(g)
      invariant whichwt == |g.closed| && countwt == |g.current|
      invariant Lists(g.closed, starts, ends, drops)
      invariant starttimelist == Starts(g.current) && endtimelist == Ends(g.current)
      invariant numdroplist == DropList(g.current)
    {
      var id := first + 2 * k;
      if id + 1 >= |flows| {
        return false, starts, ends, drops;
      }
      var flow, flowback := flows[id], flows[id + 1];
      var numdrop := flow.lost + flowback.lost;
      OneMoreFlow(counts, flows, first, k, g);
      if whichwt !in counts {
        if Present(flows, first, n) { NeverRecovers(counts, flows, first, k + 1, n); }
        return false, starts, ends, drops;
      }
      FiguresAppend(g.current, SampleOf(flows, id));
      ghost var before := g;
      g := Add(counts, g, SampleOf(flows, id)).value;
      if countwt < counts[whichwt] {
        starttimelist, endtimelist := starttimelist + [flow.firstTx], endtimelist + [flow.lastRx];
        numdroplist := numdroplist + [numdrop];
        countwt := countwt + 1;
      } else {
        ListsAppend(before.closed, before.current, starts, ends, drops);
        assert [] + [SampleOf(flows, id)] == [SampleOf(flows, id)];
        FiguresAppend([], SampleOf(flows, id));
        starts, ends, drops := starts + [starttimelist], ends + [endtimelist], drops + [numdroplist];
        starttimelist, endtimelist, numdroplist := [flow.firstTx], [flow.lastRx], [numdrop];
        whichwt, countwt := whichwt + 1, 1;
      }
    }
    ListsAppend(g.closed, g.current, starts, ends, drops);
    starts, ends, drops := starts + [starttimelist], ends + [endtimelist], drops + [numdroplist];
    GroupKeepsAll(counts, Samples(flows, first, n));
    DropsAreLosses(flows, first, n);
    FiguresOfBursts(Group(counts, Samples(flows, first, n)).value, starts, ends, drops);
    SamplesAre(flows, first, n);
    ok := true;
  }

  lemma {:induction false} NeverRecovers(counts: map<int, int>, flows: seq<Flow>, first: nat, k: nat, n: nat)
    requires 0 < k <= n && Present(flows, first, n)
    requires AddAll(counts, Samples(flows, first, k)) == None
    ensures AddAll(counts, Samples(flows, first, n)) == None
    decreases n
  {
    if k < n {
      NeverRecovers(counts, flows, first, k, n - 1);
      assert Samples(flows, first, n)[..n - 1] == Samples(flows, first, n - 1);
    }
  }
}
