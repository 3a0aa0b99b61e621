/** What an export writes for each type of metric, from the history of its updates. */
module MetricExport {
  import opened MetricStore
  import Histogram

  /**
   A histogram metric writes, for every bucket, the updates of its key that fell
   into it since the key's life began, and their sum and number unless there are
   none; evictions from the LRU in between do not show.
   */
  lemma HistogramWritten(size: nat, es: seq<Event>, key: string)
    requires size > 0 && key in Run(size, HistogramType, es).datas
    ensures var life := Numbers(Life(size, HistogramType, es, key));
      var sample := SampleOf(Run(size, HistogramType, es).datas[key]);
      && sample.Rows?
      && (forall b, n: nat :: (b, n) in sample.rows <==> n == Histogram.Hits(life, b) > 0)
      && sample.totals ==
         (if Histogram.AcceptedCount(life) > 0 then [(Histogram.AcceptedSum(life), Histogram.AcceptedCount(life))]
          else [])
  {
    MetricHasItsLife(size, HistogramType, es, key);
    AccumulatedIs(HistogramType, Life(size, HistogramType, es, key));
    var life := Numbers(Life(size, HistogramType, es, key));
    Histogram.ObservedCounts(life);
    Histogram.TotalIsAccepted(life);
    Histogram.RowsAreHits(life);
  }

  /** A counter metric writes the sum of the updates of its key since the key's life began, without those it refused. */
  lemma CounterWritten(size: nat, es: seq<Event>, key: string)
    requires size > 0 && key in Run(size, CounterType, es).datas
    ensures SampleOf(Run(size, CounterType, es).datas[key]) ==
      Value(Sum(CounterType, Life(size, CounterType, es, key)))
  {
    MetricHasItsLife(size, CounterType, es, key);
    AccumulatedIs(CounterType, Life(size, CounterType, es, key));
  }

  /** A gauge metric adds up all of them. */
  lemma GaugeWritten(size: nat, es: seq<Event>, key: string)
    requires size > 0 && key in Run(size, GaugeType, es).datas
    ensures SampleOf(Run(size, GaugeType, es).datas[key]) ==
      Value(Sum(GaugeType, Life(size, GaugeType, es, key)))
  {
    MetricHasItsLife(size, GaugeType, es, key);
    AccumulatedIs(GaugeType, Life(size, GaugeType, es, key));
  }
}
