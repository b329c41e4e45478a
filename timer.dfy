/**
 * `StageTimer`: the elapsed time of each pipeline stage. Clock readings are integer
 * ticks handed in by the caller (one tick = one millisecond), so the `<name>_ms`
 * values of `metrics` are the durations themselves.
 */
module Timing {

  /** One `(name, duration)` pair of `_durations`. */
  datatype Sample = Sample(name: string, duration: int)

  const TOTAL_KEY: string := "total_ms"

  function MetricKey(name: string): string {
    name + "_ms"
  }

  /** The sum of the durations. */
  function Total(ds: seq<Sample>): int {
    if ds == [] then 0 else Total(ds[..|ds| - 1]) + ds[|ds| - 1].duration
  }

  /** The per-stage entries `metrics` writes, one after another, so the last sample of a name wins. */
  function Entries(ds: seq<Sample>): map<string, int> {
    if ds == [] then map[]
    else Entries(ds[..|ds| - 1])[MetricKey(ds[|ds| - 1].name) := ds[|ds| - 1].duration]
  }

  /** What `metrics` returns: the entries, then `total_ms` (0 when nothing was marked). */
  function Metrics(ds: seq<Sample>): map<string, int> {
    Entries(ds)[TOTAL_KEY := if ds != [] then Total(ds) else 0]
  }

  /** `total_ms` is always present and is the sum of every duration, repeated names included. */
  lemma MetricsTotal(ds: seq<Sample>)
    ensures TOTAL_KEY in Metrics(ds) && Metrics(ds)[TOTAL_KEY] == Total(ds)
  {
  }

  /** Without marks, the metrics are exactly `{total_ms: 0}`. */
  lemma MetricsEmpty()
    ensures Metrics([]) == map[TOTAL_KEY := 0]
  {
  }

  /** The keys are `total_ms` and `<name>_ms` for each marked name. */
  lemma {:induction false} EntriesKeys(ds: seq<Sample>)
    ensures Entries(ds).Keys == set i | 0 <= i < |ds| :: MetricKey(ds[i].name)
  {
    if ds != [] {
      var init := ds[..|ds| - 1];
      EntriesKeys(init);
      var last := |ds| - 1;
      assert forall i :: 0 <= i < |init| ==> init[i] == ds[i];
      assert (set i | 0 <= i < |ds| :: MetricKey(ds[i].name))
          == (set i | 0 <= i < |init| :: MetricKey(init[i].name)) + {MetricKey(ds[last].name)};
    }
  }

  /** A `<name>_ms` entry holds the duration of the last sample with that name. */
  lemma {:induction false} EntriesLastWins(ds: seq<Sample>, i: nat)
    requires i < |ds|
    requires forall j :: i < j < |ds| ==> ds[j].name != ds[i].name
    ensures MetricKey(ds[i].name) in Entries(ds) && Entries(ds)[MetricKey(ds[i].name)] == ds[i].duration
  {
    var last := |ds| - 1;
    if i < last {
      var init := ds[..last];
      assert ds[last].name != ds[i].name;
      MetricKeyInjective(ds[last].name, ds[i].name);
      EntriesLastWins(init, i);
    }
  }

  /** Distinct stage names have distinct metric keys. */
  lemma MetricKeyInjective(a: string, b: string)
    ensures MetricKey(a) == MetricKey(b) ==> a == b
  {
    if MetricKey(a) == MetricKey(b) {
      assert a == MetricKey(a)[..|a|];
      assert b == MetricKey(b)[..|b|];
    }
  }

  /** The same holds in `metrics`, except for a stage named "total", whose entry the total overwrites. */
  lemma MetricsLastWins(ds: seq<Sample>, i: nat)
    requires i < |ds|
    requires forall j :: i < j < |ds| ==> ds[j].name != ds[i].name
    requires MetricKey(ds[i].name) != TOTAL_KEY
    ensures MetricKey(ds[i].name) in Metrics(ds) && Metrics(ds)[MetricKey(ds[i].name)] == ds[i].duration
  {
    EntriesLastWins(ds, i);
  }

  class StageTimer {
    /** The reading taken at construction: `Valid` ties the durations to it. */
    ghost const origin: int
    var last: int
    var durations: seq<Sample>

    /** The durations always add up to the last reading minus the construction reading. */
    ghost predicate Valid()
      reads this
    {
      Total(durations) == last - origin
    }

    constructor (now: int)
      ensures Valid() && origin == now && last == now && durations == []
    {
      origin := now;
      last := now;
      durations := [];
    }

    method Mark(name: string, now: int)
      requires Valid()
      modifies this
      ensures Valid()
      ensures durations == old(durations) + [Sample(name, now - old(last))] && last == now
    {
      durations := durations + [Sample(name, now - last)];
      last := now;
    }

    /** The loop of `metrics`: one entry per sample, then `total_ms`. */
    method GetMetrics() returns (metric: map<string, int>)
      ensures metric == Metrics(durations)
    {
      var total := 0;
      metric := map[];
      for i := 0 to |durations|
        invariant metric == Entries(durations[..i])
        invariant total == Total(durations[..i])
      {
        assert durations[..i + 1][..i] == durations[..i];
        metric := metric[MetricKey(durations[i].name) := durations[i].duration];
        total := total + durations[i].duration;
      }
      assert durations[..|durations|] == durations;
      if durations != [] {
        metric := metric[TOTAL_KEY := total];
      } else {
        metric := metric[TOTAL_KEY := 0];
      }
    }
  }

  /**
   * A timer started at tick 0 and marked "stt" at tick 50 and "llm" at tick 200 reports
   * stt_ms = 50, llm_ms = 150 and total_ms = 200.
   */
  method TwoStageRun() returns (m: map<string, int>)
    ensures m == map["stt_ms" := 50, "llm_ms" := 150, "total_ms" := 200]
  {
    var timer := new StageTimer(0);
    timer.Mark("stt", 50);
    timer.Mark("llm", 200);
    m := timer.GetMetrics();
    var ds := timer.durations;
    assert ds == [Sample("stt", 50), Sample("llm", 150)];
    assert ds[..1] == [Sample("stt", 50)];
    assert ds[..1][..0] == [];
    assert MetricKey("stt") == "stt_ms" && MetricKey("llm") == "llm_ms";
    assert Entries(ds[..1]) == map["stt_ms" := 50];
    assert Entries(ds) == map["stt_ms" := 50, "llm_ms" := 150];
  }
}
