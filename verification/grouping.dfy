/**
 * Grouping of events by their date key, as both views do it with a `reduce`
 * that appends each event to the bucket of its date, creating the bucket the
 * first time the date is seen.
 */
module Grouping {
  import opened Seqs
  import opened Queries

  /** The events dated `date`, in input order. */
  function EventsOn(events: seq<EarningsEvent>, date: string): seq<EarningsEvent>
  {
    Filter(events, (e: EarningsEvent) => e.date == date)
  }

  /** The distinct dates of the events, in order of first appearance (the order of `Object.keys`). */
  function Dates(events: seq<EarningsEvent>): (r: seq<string>)
    ensures Distinct(r)
    ensures forall k :: k in r <==> exists i :: 0 <= i < |events| && events[i].date == k
  {
    if events == [] then []
    else
      var prefix := events[..|events| - 1];
      var p := Dates(prefix);
      var d := events[|events| - 1].date;
      assert forall i :: 0 <= i < |prefix| ==> prefix[i] == events[i];
      if d in p then p else p + [d]
  }

  /** Appending one event appends it to its own date's bucket and to no other. */
  lemma EventsOnSnoc(events: seq<EarningsEvent>, e: EarningsEvent, date: string)
    ensures EventsOn(events + [e], date) == EventsOn(events, date) + (if e.date == date then [e] else [])
  {
    assert (events + [e])[..|events|] == events;
  }

  /**
   * The group-by `reduce`: keys lists each date once in order of first
   * appearance, and the bucket of each key holds exactly the events of that
   * date, in input order.
   */
  method GroupByDate(events: seq<EarningsEvent>) returns (keys: seq<string>, buckets: map<string, seq<EarningsEvent>>)
    ensures keys == Dates(events)
    ensures forall k :: k in buckets <==> k in keys
    ensures forall k :: k in buckets ==> buckets[k] == EventsOn(events, k)
  {
    keys, buckets := [], map[];
    for n := 0 to |events|
      invariant keys == Dates(events[..n])
      invariant forall k :: k in buckets <==> k in keys
      invariant forall k :: k in buckets ==> buckets[k] == EventsOn(events[..n], k)
    {
      var e := events[n];
      assert events[..n + 1] == events[..n] + [e];
      ghost var before := buckets;
      EventsOnNonEmpty(events[..n], e.date);
      if e.date !in buckets {
        keys := keys + [e.date];
        buckets := buckets[e.date := []];
      }
      buckets := buckets[e.date := buckets[e.date] + [e]];
      forall k | k in buckets
        ensures buckets[k] == EventsOn(events[..n + 1], k)
      {
        EventsOnSnoc(events[..n], e, k);
        assert k != e.date ==> k in before && buckets[k] == before[k];
      }
    }
    assert events[..|events|] == events;
  }

  /** Each event lies in the bucket of its own date, as often as in the input, and in no other. */
  lemma EventsOnCount(events: seq<EarningsEvent>, date: string, x: EarningsEvent)
    ensures multiset(EventsOn(events, date))[x] == if x.date == date then multiset(events)[x] else 0
  {
    FilterCount(events, (e: EarningsEvent) => e.date == date, x);
  }

  /** A bucket keeps the input order of its events: it is the subsequence of the date's positions. */
  lemma EventsOnOrder(events: seq<EarningsEvent>, date: string) returns (idx: seq<int>)
    ensures Embedding(EventsOn(events, date), events, idx)
    ensures forall j :: 0 <= j < |events| && events[j].date == date ==> j in idx
  {
    idx := FilterPositions(events, (e: EarningsEvent) => e.date == date);
  }

  /** The bucket of a date is non-empty exactly when that date is one of the keys. */
  lemma EventsOnNonEmpty(events: seq<EarningsEvent>, date: string)
    ensures EventsOn(events, date) != [] <==> date in Dates(events)
  {
    FilterEmpty(events, (e: EarningsEvent) => e.date == date);
    if date in Dates(events) {
      var i :| 0 <= i < |events| && events[i].date == date;
      assert events[i] in events;
    }
  }
}
