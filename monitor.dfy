/** The endpoint monitor object (app.py, class EPM): the endpoint list read
    from the configuration, and the per-domain statistics that every probe
    updates in place. */
module Monitor {
  import opened Wrappers
  import opened Seqs
  import opened Probe
  import opened Config
  import opened Statistics
  import opened Reporting

  /** One scheduled check: an endpoint and what the transport will answer for it. */
  datatype Task = Task(endpoint: Endpoint, probe: Outcome)

  /** The task list monitorCycle builds, one task per endpoint. */
  function Tasks(endpoints: seq<Endpoint>, probes: seq<Outcome>): seq<Task>
    requires |probes| == |endpoints|
  {
    seq(|endpoints|, i requires 0 <= i < |endpoints| => Task(endpoints[i], probes[i]))
  }

  /** What a task contributes to the statistics: its endpoint's domain and its outcome. */
  function Observations(ts: seq<Task>, domainOf: string -> string): seq<Observation> {
    seq(|ts|, i requires 0 <= i < |ts| => Observation(domainOf(ts[i].endpoint.url), ts[i].probe))
  }

  /** One cycle's outcomes applied in an arrival order that is a permutation
      of the endpoints: consistency is kept, the counters are those of
      endpoint order, each outcome adds one check, and nothing decreases. */
  lemma CycleEffect(s: Stats, xs: seq<Observation>, arrival: seq<nat>)
    requires Statistics.Valid(s)
    requires IsPermutationOf(arrival, |xs|)
    ensures var t := ApplyAll(s, Select(xs, arrival));
      && Statistics.Valid(t)
      && (Probed(s) ==> Probed(t))
      && t.counts == ApplyAll(s, xs).counts
      && Checks(t) == Checks(s) + |xs|
      && Grows(s, t)
  {
    var arrived := Select(xs, arrival);
    SelectPermutation(xs, arrival);
    ApplyAllOrderIndependent(s, arrived, xs);
    ApplyAllValid(s, arrived);
    ApplyAllChecks(s, arrived);
    ApplyAllGrows(s, arrived);
  }

  class EndpointMonitor {
    const configPath: string
    var endpoints: seq<Endpoint>
    /** The keys of domainStats, in the order they were inserted. */
    var order: seq<string>
    var domainStats: map<string, Counters>

    /** The statistics as a value. */
    function Snapshot(): Stats
      reads this
    {
      Stats(order, domainStats)
    }

    ghost predicate Valid()
      reads this
    {
      Statistics.Valid(Snapshot()) && Probed(Snapshot())
    }

    /** EPM.__init__: no endpoints yet and empty statistics. */
    constructor (configPath: string)
      ensures this.configPath == configPath
      ensures endpoints == [] && Snapshot() == Empty
      ensures Valid()
    {
      this.configPath := configPath;
      endpoints := [];
      order := [];
      domainStats := map[];
    }

    /** loadConfig, from the parsed YAML list on: keep the endpoints and give
        each one without a method the method GET. */
    method LoadConfig(parsed: seq<Endpoint>)
      modifies this
      ensures |endpoints| == |parsed|
      ensures forall i :: 0 <= i < |parsed| ==> endpoints[i] == WithDefaultMethod(parsed[i])
      ensures forall i :: 0 <= i < |endpoints| ==> endpoints[i].httpMethod.Some?
      ensures Snapshot() == old(Snapshot())
    {
      endpoints := parsed;
      var i := 0;
      while i < |endpoints|
        invariant 0 <= i <= |endpoints| == |parsed|
        invariant forall k :: 0 <= k < i ==> endpoints[k] == WithDefaultMethod(parsed[k])
        invariant forall k :: i <= k < |endpoints| ==> endpoints[k] == parsed[k]
        invariant Snapshot() == old(Snapshot())
      {
        if endpoints[i].httpMethod.None? {
          endpoints := endpoints[i := endpoints[i].(httpMethod := Some(DefaultMethod))];
        }
        i := i + 1;
      }
    }

    /** Reading domainStats[domain]: the default dictionary creates the
        entry {up: 0, total: 0} at the end of the key order on first use. */
    method Touch(domain: string)
      modifies this
      ensures domain in domainStats
      ensures endpoints == old(endpoints)
      ensures domain in old(domainStats) ==> order == old(order) && domainStats == old(domainStats)
      ensures domain !in old(domainStats) ==>
        order == old(order) + [domain] && domainStats == old(domainStats)[domain := Counters(0, 0)]
    {
      if domain !in domainStats {
        order := order + [domain];
        domainStats := domainStats[domain := Counters(0, 0)];
      }
    }

    /** checkEndpoint, with the request abstracted to the transport's answer:
        on a response, total + 1 and, when UP, up + 1; on an exception, total + 1. */
    method CheckEndpoint(endpoint: Endpoint, probe: Outcome, domainOf: string -> string)
      requires Valid()
      modifies this
      ensures Valid()
      ensures endpoints == old(endpoints)
      ensures Snapshot() == Record(old(Snapshot()), Observation(domainOf(endpoint.url), probe))
    {
      ghost var s := Snapshot();
      var domain := domainOf(endpoint.url);
      ghost var o := Observation(domain, probe);
      ghost var c := Lookup(s.counts, domain);
      match probe {
        case Responded(status, elapsedMs) =>
          var isUp := 200 <= status < 300 && elapsedMs < LatencyLimitMs;
          Touch(domain);
          domainStats := domainStats[domain := domainStats[domain].(total := domainStats[domain].total + 1)];
          if isUp {
            domainStats := domainStats[domain := domainStats[domain].(up := domainStats[domain].up + 1)];
          }
          assert domainStats == s.counts[domain := Counters(if isUp then c.up + 1 else c.up, c.total + 1)];
        case Raised =>
          Touch(domain);
          domainStats := domainStats[domain := domainStats[domain].(total := domainStats[domain].total + 1)];
          assert domainStats == s.counts[domain := Counters(c.up, c.total + 1)];
      }
      assert domainStats == Bump(s.counts, o);
      RecordValid(s, o);
    }

    /** printAvailability: one line per domain with at least one check, in
        insertion order. */
    method PrintAvailability() returns (lines: seq<string>)
      requires Valid()
      ensures lines == Lines(Report(Snapshot()))
      ensures |lines| == |order|
    {
      lines := [];
      var i := 0;
      while i < |order|
        invariant 0 <= i <= |order|
        invariant lines == Lines(Entries(order[..i], domainStats))
      {
        var domain := order[i];
        var stats := domainStats[domain];
        assert order[..i + 1] == order[..i] + [domain];
        EntriesSnoc(order[..i], domainStats, domain);
        if stats.total > 0 {
          var availability := Rounding.Percent(stats.up, stats.total);
          LinesAppend(Entries(order[..i], domainStats), Availability(domain, availability));
          lines := lines + [Line(Availability(domain, availability))];
        }
        i := i + 1;
      }
      assert order[..i] == order;
      ReportCoversAll(Snapshot());
    }

    /** asyncio.gather: every task runs to completion, their updates taking
        effect one at a time in the order `arrival` gives. */
    method Gather(tasks: seq<Task>, arrival: seq<nat>, domainOf: string -> string)
      requires Valid()
      requires forall k :: 0 <= k < |arrival| ==> arrival[k] < |tasks|
      modifies this
      ensures Valid()
      ensures endpoints == old(endpoints)
      ensures Snapshot() == ApplyAll(old(Snapshot()), Select(Observations(tasks, domainOf), arrival))
    {
      ghost var s0 := Snapshot();
      ghost var os := Observations(tasks, domainOf);
      var k := 0;
      while k < |arrival|
        invariant 0 <= k <= |arrival|
        invariant Valid() && endpoints == old(endpoints)
        invariant Snapshot() == ApplyAll(s0, Select(os, arrival[..k]))
      {
        var task := tasks[arrival[k]];
        assert os[arrival[k]] == Observation(domainOf(task.endpoint.url), task.probe);
        CheckEndpoint(task.endpoint, task.probe, domainOf);
        assert arrival[..k + 1] == arrival[..k] + [arrival[k]];
        SelectSnoc(os, arrival[..k], arrival[k]);
        ApplyAllSnoc(s0, Select(os, arrival[..k]), os[arrival[k]]);
        k := k + 1;
      }
      assert arrival[..k] == arrival;
    }

    /** monitorCycle: build one task per endpoint, let the checks complete in
        the order `arrival` gives (asyncio.gather runs each update without
        interruption), then print the report. */
    method MonitorCycle(probes: seq<Outcome>, arrival: seq<nat>, domainOf: string -> string)
      returns (lines: seq<string>)
      requires Valid()
      requires |probes| == |endpoints|
      requires IsPermutationOf(arrival, |endpoints|)
      modifies this
      ensures Valid()
      ensures endpoints == old(endpoints)
      ensures Snapshot()
        == ApplyAll(old(Snapshot()), Select(Observations(Tasks(endpoints, probes), domainOf), arrival))
      ensures Snapshot().counts
        == ApplyAll(old(Snapshot()), Observations(Tasks(endpoints, probes), domainOf)).counts
      ensures Checks(Snapshot()) == Checks(old(Snapshot())) + |endpoints|
      ensures Grows(old(Snapshot()), Snapshot())
      ensures lines == Lines(Report(Snapshot()))
    {
      var tasks: seq<Task> := [];
      var i := 0;
      while i < |endpoints|
        invariant 0 <= i <= |endpoints|
        invariant tasks == Tasks(endpoints[..i], probes[..i])
        invariant Snapshot() == old(Snapshot()) && endpoints == old(endpoints)
      {
        tasks := tasks + [Task(endpoints[i], probes[i])];
        i := i + 1;
      }
      assert endpoints[..i] == endpoints && probes[..i] == probes;
      assert tasks == Tasks(endpoints, probes);

      ghost var s0 := Snapshot();
      Gather(tasks, arrival, domainOf);
      CycleEffect(s0, Observations(tasks, domainOf), arrival);
      lines := PrintAvailability();
    }
  }
}
