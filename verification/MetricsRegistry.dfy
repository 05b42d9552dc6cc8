/**
 * The registry of latency histograms and its cardinality guard
 * (services/api/src/lib/metrics.ts). A series is known by its label key.
 */
module MetricsRegistry {
  import opened Histogram

  const MAX_SERIES := 500

  /** What each series stands for: its observations since the last reset. */
  type Series = map<string, seq<real>>

  function Recorded(series: Series, key: string, value: real): Series {
    if key in series then series[key := series[key] + [value]]
    else if |series| >= MAX_SERIES then series
    else series[key := [value]]
  }

  function Cleared(series: Series): Series {
    map key | key in series :: []
  }

  class Registry {
    var histograms: map<string, Histogram>

    ghost predicate Valid()
      reads this, histograms.Values, set h | h in histograms.Values :: h.counts
    {
      && (forall k <- histograms :: histograms[k].Valid())
      && (forall j <- histograms, k <- histograms :: j != k ==>
          histograms[j] != histograms[k] && histograms[j].counts != histograms[k].counts)
    }

    ghost function Contents(): Series
      reads this, histograms.Values
    {
      map key | key in histograms :: histograms[key].seen
    }

    constructor ()
      ensures Valid() && Contents() == map[]
    {
      histograms := map[];
    }

    method Observe(key: string, valueMs: real)
      requires Valid()
      modifies this, histograms.Values, set h | h in histograms.Values :: h.counts
      ensures Valid() && Contents() == Recorded(old(Contents()), key, valueMs)
    {
      hide Valid, Histogram.Valid;
      ghost var before := Contents();
      assert before.Keys == histograms.Keys && |before| == |before.Keys| == |histograms|;
      if key !in histograms {
        if |histograms| >= MAX_SERIES {
          return;
        }
        Open(key);
      }
      Append(key, valueMs);
      assert [] + [valueMs] == [valueMs];
      assert Contents() == Recorded(before, key, valueMs);
    }

    method Open(key: string)
      requires Valid() && key !in histograms
      modifies this
      ensures Valid() && key in histograms && Contents() == old(Contents())[key := []]
      ensures fresh(histograms[key]) && fresh(histograms[key].counts)
      ensures histograms == old(histograms)[key := histograms[key]]
    {
      hide Histogram.Valid;
      var histogram := new Histogram();
      ghost var before := Contents();
      histograms := histograms[key := histogram];
      assert Contents() == before[key := []];
    }

    method Append(key: string, valueMs: real)
      requires Valid() && key in histograms
      modifies histograms[key], histograms[key].counts
      ensures Valid() && Contents() == old(Contents())[key := old(Contents()[key]) + [valueMs]]
    {
      hide Histogram.Valid;
      ghost var before := Contents();
      histograms[key].Observe(valueMs);
      assert Contents().Keys == before.Keys;
      assert forall k <- before :: k != key ==> Contents()[k] == before[k];
    }

    method ResetHistograms()
      requires Valid()
      modifies histograms.Values, set h | h in histograms.Values :: h.counts
      ensures Valid() && Contents() == Cleared(old(Contents()))
    {
      hide Histogram.Valid;
      var left := histograms.Keys;
      while left != {}
        invariant left <= histograms.Keys
        invariant Valid()
        invariant forall k <- histograms :: histograms[k].seen == if k in left then old(histograms[k].seen) else []
      {
        var key :| key in left;
        assert histograms[key] in histograms.Values;
        histograms[key].Reset();
        left := left - {key};
      }
    }
  }

  // ------------------------------------------------------------------ whole runs

  datatype Event = Seen(key: string, value: real) | ResetAll

  function After(events: seq<Event>): Series {
    if events == [] then map[]
    else match events[|events| - 1]
      case Seen(key, value) => Recorded(After(events[..|events| - 1]), key, value)
      case ResetAll => Cleared(After(events[..|events| - 1]))
  }

  /** The distinct keys of a run, in the order they first appear. */
  function KeysOf(events: seq<Event>): seq<string> {
    if events == [] then []
    else
      var keys := KeysOf(events[..|events| - 1]);
      match events[|events| - 1]
      case Seen(key, _) => if key in keys then keys else keys + [key]
      case ResetAll => keys
  }

  /** The first 500 of them. */
  function Admitted(events: seq<Event>): seq<string> {
    var keys := KeysOf(events);
    if |keys| <= 500 then keys else keys[..500]
  }

  function SinceReset(events: seq<Event>, key: string): seq<real> {
    if events == [] then []
    else match events[|events| - 1]
      case Seen(k, value) => SinceReset(events[..|events| - 1], key) + if k == key then [value] else []
      case ResetAll => []
  }

  ghost predicate Exact(events: seq<Event>) {
    && |After(events)| == |Admitted(events)|
    && (forall key :: key in After(events) <==> key in Admitted(events))
    && (forall key <- After(events) :: After(events)[key] == SinceReset(events, key))
    && (forall key :: key !in KeysOf(events) ==> SinceReset(events, key) == [])
  }

  /**
   * However long the run, the registry holds at most 500 series: those of the
   * first 500 keys, each with all of its observations since the last reset.
   */
  lemma {:induction false} RegistryExact(events: seq<Event>)
    ensures |After(events)| <= 500 && Exact(events)
  {
    if events == [] {
    } else {
      var (before, last) := (events[..|events| - 1], events[|events| - 1]);
      RegistryExact(before);
      match last
      case Seen(key, value) => RecordedExact(before, key, value);
        assert before + [last] == events;
      case ResetAll => ClearedExact(before);
        assert before + [last] == events;
    }
  }

  lemma RecordedExact(before: seq<Event>, key: string, value: real)
    requires Exact(before)
    ensures Exact(before + [Seen(key, value)])
  {
    hide Exact, After;
    if key in After(before) {
      KnownExact(before, key, value);
    } else if |After(before)| >= MAX_SERIES {
      RefusedExact(before, key, value);
    } else {
      AdmittedExact(before, key, value);
    }
  }

  lemma KnownExact(before: seq<Event>, key: string, value: real)
    requires Exact(before) && key in After(before)
    ensures Exact(before + [Seen(key, value)])
  {
    hide After, KeysOf, SinceReset;
    AfterSeen(before, key, value);
    assert key in KeysOf(before);
    assert After(before + [Seen(key, value)]).Keys == After(before).Keys;
  }

  lemma RefusedExact(before: seq<Event>, key: string, value: real)
    requires Exact(before) && key !in After(before) && |After(before)| >= MAX_SERIES
    ensures Exact(before + [Seen(key, value)])
  {
    hide After, KeysOf, SinceReset;
    AfterSeen(before, key, value);
    assert Admitted(before + [Seen(key, value)]) == Admitted(before);
  }

  lemma AdmittedExact(before: seq<Event>, key: string, value: real)
    requires Exact(before) && key !in After(before) && |After(before)| < MAX_SERIES
    ensures Exact(before + [Seen(key, value)])
  {
    hide After, KeysOf, SinceReset;
    AfterSeen(before, key, value);
    assert key !in KeysOf(before);
    assert After(before + [Seen(key, value)]).Keys == After(before).Keys + {key};
    assert |After(before + [Seen(key, value)]).Keys| == |After(before).Keys| + 1;
  }

  lemma AfterSeen(before: seq<Event>, key: string, value: real)
    ensures var events := before + [Seen(key, value)];
      && After(events) == Recorded(After(before), key, value)
      && KeysOf(events) == (if key in KeysOf(before) then KeysOf(before) else KeysOf(before) + [key])
      && forall k :: SinceReset(events, k) == SinceReset(before, k) + if k == key then [value] else []
  {
    assert (before + [Seen(key, value)])[..|before|] == before;
  }

  lemma ClearedExact(before: seq<Event>)
    requires Exact(before)
    ensures Exact(before + [ResetAll])
  {
    assert (before + [ResetAll])[..|before|] == before;
    assert After(before + [ResetAll]).Keys == After(before).Keys;
  }
}
