/** What the published figures of a tier, or of a whole run, are: counts, sums and the latency quantile over its outcomes. */
module BaselineFigures {
  import opened Wrappers
  import opened Baseline

  function SumBy(rows: seq<Outcome>, amount: Outcome -> real): real {
    if rows == [] then 0.0 else amount(rows[0]) + SumBy(rows[1..], amount)
  }

  /** The quantile: a latency that at least 95 in 100 of the samples do not exceed, and fewer than 95 in 100 stay below. */
  predicate IsP95(v: real, rows: seq<Outcome>) {
    var samples := Count(rows, (o: Outcome) => o.latency.Some?);
    && Count(rows, (o: Outcome) => o.latency == Some(v)) > 0
    && 100 * Count(rows, (o: Outcome) => o.latency.Some? && o.latency.value <= v) >= 95 * samples
    && 100 * Count(rows, (o: Outcome) => o.latency.Some? && o.latency.value < v) < 95 * samples
  }

  ghost predicate FiguresOf(e: Economics, rows: seq<Outcome>) {
    && e.count == |rows|
    && e.modelCalls as real == SumBy(rows, (o: Outcome) => o.modelCalls as real)
    && e.unpricedCalls as real == SumBy(rows, (o: Outcome) => if o.cost.None? then o.modelCalls as real else 0.0)
    && e.latencySamples == Count(rows, (o: Outcome) => o.latency.Some?)
    && (match e.p95 case Some(v) => IsP95(v, rows) case None => e.latencySamples == 0)
    && (e.cost.None? <==> exists o | o in rows :: o.modelCalls > 0 && o.cost.None?)
    && (e.cost.Some? ==> e.cost.value == SumBy(rows, (o: Outcome) => if o.cost.Some? then o.cost.value else 0.0))
  }

  lemma {:induction false} SumsAre(rows: seq<Outcome>)
    ensures ModelCalls(rows) as real == SumBy(rows, (o: Outcome) => o.modelCalls as real)
    ensures UnpricedCalls(rows) as real == SumBy(rows, (o: Outcome) => if o.cost.None? then o.modelCalls as real else 0.0)
    ensures TotalCost(rows) == SumBy(rows, (o: Outcome) => if o.cost.Some? then o.cost.value else 0.0)
    ensures |Latencies(rows)| == Count(rows, (o: Outcome) => o.latency.Some?)
  {
    if rows != [] { SumsAre(rows[1..]); }
  }

  lemma {:induction false} LatencyCounts(rows: seq<Outcome>, v: real)
    ensures CountAtMost(Latencies(rows), v) == Count(rows, (o: Outcome) => o.latency.Some? && o.latency.value <= v)
    ensures CountBelow(Latencies(rows), v) == Count(rows, (o: Outcome) => o.latency.Some? && o.latency.value < v)
    ensures v in Latencies(rows) <==> Count(rows, (o: Outcome) => o.latency == Some(v)) > 0
  {
    if rows != [] {
      LatencyCounts(rows[1..], v);
      var first := if rows[0].latency.Some? then [rows[0].latency.value] else [];
      assert Latencies(rows) == first + Latencies(rows[1..]);
      if first != [] {
        assert Latencies(rows)[0] == first[0] && Latencies(rows)[1..] == Latencies(rows[1..]);
      } else {
        assert Latencies(rows) == Latencies(rows[1..]);
      }
    }
  }

  /** The figures gathered from outcomes say this of them. */
  lemma {:induction false} FiguresSay(rows: seq<Outcome>)
    ensures FiguresOf(EconomicsOf(rows), rows)
  {
    hide SumBy, Count, ModelCalls, UnpricedCalls, TotalCost, Latencies, Percentile, CountAtMost, CountBelow;
    SumsAre(rows);
    var p := Percentile(Latencies(rows), 0.95);
    assert Latencies(rows) != [] ==> p.Some? by { SomePercentile(Latencies(rows)); }
    assert Latencies(rows) == [] ==> p.None? by { SomePercentile(Latencies(rows)); }
    if p.Some? {
      LatencyCounts(rows, p.value);
      PercentileIsNearestRankIff(Latencies(rows), 0.95, p.value);
    }
  }

  lemma SomePercentile(values: seq<real>)
    ensures Percentile(values, 0.95).Some? <==> values != []
  {
  }
}
