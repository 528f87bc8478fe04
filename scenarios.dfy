/** Whole-run consequences of the model: the statistics after concrete
    sequences of outcomes, and their report. */
module Scenarios {
  import opened Probe
  import opened Rounding
  import opened Statistics
  import opened Reporting
  import opened Monitor

  function Mixed(a: string, b: string): seq<Observation> {
    [Observation(a, Responded(200, 100)), Observation(b, Responded(503, 50)), Observation(a, Raised)]
  }

  lemma MixedTally(a: string, b: string)
    requires a != b
    ensures Tally(map[], Mixed(a, b)) == map[a := Counters(1, 2), b := Counters(0, 1)]
  {
    var ys := Mixed(a, b);
    var m1 := map[a := Counters(1, 1)];
    var m2 := map[a := Counters(1, 1), b := Counters(0, 1)];
    var m3 := map[a := Counters(1, 2), b := Counters(0, 1)];
    assert Bump(map[], ys[0]) == m1;
    assert Bump(m1, ys[1]) == m2;
    assert Bump(m2, ys[2]) == m3;
    assert ys[1..] == [ys[1], ys[2]] && ys[1..][1..] == [ys[2]] && [ys[2]][1..] == [];
    assert Tally(m2, [ys[2]]) == Tally(m3, []) == m3;
    assert Tally(m1, ys[1..]) == Tally(m2, [ys[2]]);
  }

  /** Outcomes A-up, B-down, A-down, in that order or any other, leave A at
      1 of 2 (50%) and B at 0 of 1 (0%). */
  lemma MixedOutcomes(a: string, b: string, xs: seq<Observation>)
    requires a != b
    requires multiset(xs) == multiset(Mixed(a, b))
    ensures ApplyAll(Empty, xs).counts == map[a := Counters(1, 2), b := Counters(0, 1)]
    ensures Percent(1, 2) == 50 && Percent(0, 1) == 0
  {
    ApplyAllCounts(Empty, xs);
    TallyPermutation(map[], xs, Mixed(a, b));
    MixedTally(a, b);
    PercentExact(1, 2, 50);
    PercentExact(0, 1, 0);
  }

  /** One cycle over two endpoints of the same domain: one always UP, one always DOWN. */
  function HalfUpCycle(d: string): seq<Observation> {
    [Observation(d, Responded(200, 100)), Observation(d, Responded(500, 20))]
  }

  function Cycles(d: string, k: nat): seq<Observation> {
    if k == 0 then [] else Cycles(d, k - 1) + HalfUpCycle(d)
  }

  /** After k such cycles the domain stands at k UP checks out of 2k. */
  lemma {:induction false} CyclesCounters(d: string, k: nat)
    requires k > 0
    ensures ApplyAll(Empty, Cycles(d, k)) == Stats([d], map[d := Counters(k, 2 * k)])
  {
    var c := HalfUpCycle(d);
    var s0 := if k == 1 then Empty else Stats([d], map[d := Counters(k - 1, 2 * (k - 1))]);
    if k == 1 {
      assert Cycles(d, 1) == [] + c;
    } else {
      CyclesCounters(d, k - 1);
    }
    ApplyAllAppend(Empty, Cycles(d, k - 1), c);
    assert ApplyAll(Empty, Cycles(d, k - 1)) == s0;
    var s1 := Record(s0, c[0]);
    assert s1 == Stats([d], map[d := Counters(k, 2 * k - 1)]);
    assert c[1..] == [c[1]] && [c[1]][1..] == [];
    assert ApplyAll(s1, [c[1]]) == Record(s1, c[1]);
    assert ApplyAll(s0, c) == ApplyAll(s1, [c[1]]);
  }

  /** Cumulative availability of that domain is 50% after every cycle, and it
      is the only line of the report. */
  lemma HalfAvailability(d: string, k: nat)
    requires k > 0
    ensures Report(ApplyAll(Empty, Cycles(d, k))) == [Availability(d, 50)]
  {
    CyclesCounters(d, k);
    PercentExact(k, 2 * k, 50);
    var m := map[d := Counters(k, 2 * k)];
    assert [d][..0] == [];
    assert Entries([d], m) == Entries([], m) + [Availability(d, Percent(k, 2 * k))];
  }

  /** A monitor whose configuration lists no endpoints: its first cycle
      records nothing and prints no line. */
  method NoEndpointsNoLines(configPath: string, domainOf: string -> string)
    returns (lines: seq<string>)
    ensures lines == []
  {
    var monitor := new EndpointMonitor(configPath);
    monitor.LoadConfig([]);
    lines := monitor.MonitorCycle([], [], domainOf);
  }
}
