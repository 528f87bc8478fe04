/** The per-domain statistics of the monitor (app.py, EPM.domainStats) as a
    value: counters per domain, the domains in first-insertion order (a
    Python dict iterates in that order), and the update one probe outcome
    makes (checkEndpoint, lines 55-61). */
module Statistics {
  import opened Seqs
  import opened Probe

  /** The `{'up': .., 'total': ..}` entry of one domain. */
  datatype Counters = Counters(up: nat, total: nat)

  /** One probe outcome as the aggregator sees it: the endpoint's domain
      and what the transport reported. */
  datatype Observation = Observation(domain: string, probe: Outcome)

  /** domainStats: the keys in insertion order and the entry of each key. */
  datatype Stats = Stats(order: seq<string>, counts: map<string, Counters>)

  /** The statistics of a freshly constructed monitor. */
  const Empty: Stats := Stats([], map[])

  /** What reading a domain's entry gives: a default dictionary hands out
      `{up: 0, total: 0}` for a domain not seen before. */
  function Lookup(m: map<string, Counters>, d: string): Counters {
    if d in m then m[d] else Counters(0, 0)
  }

  /** The consistency of the statistics: each key listed once, the listed
      keys are the entries, and no domain has more UP checks than checks. */
  ghost predicate Valid(s: Stats) {
    && NoDup(s.order)
    && (forall d :: d in s.counts <==> d in s.order)
    && (forall d :: d in s.counts ==> s.counts[d].up <= s.counts[d].total)
  }

  /** Every domain with an entry has been checked at least once. */
  ghost predicate Probed(s: Stats) {
    forall d :: d in s.counts ==> s.counts[d].total > 0
  }

  /** The counters after one outcome: total + 1, and up + 1 when UP. */
  function Bump(m: map<string, Counters>, o: Observation): map<string, Counters> {
    var c := Lookup(m, o.domain);
    m[o.domain := Counters(if IsUp(o.probe) then c.up + 1 else c.up, c.total + 1)]
  }

  /** The statistics after one probe outcome; a domain seen for the first
      time is appended to the key order. */
  function Record(s: Stats, o: Observation): Stats {
    Stats(if o.domain in s.counts then s.order else s.order + [o.domain], Bump(s.counts, o))
  }

  /** The statistics after a sequence of outcomes, applied first to last. */
  function ApplyAll(s: Stats, xs: seq<Observation>): Stats
    decreases |xs|
  {
    if xs == [] then s else ApplyAll(Record(s, xs[0]), xs[1..])
  }

  // ---------------------------------------------------------------- one update

  /** The effect of one outcome on the domain it names, on the response path
      and on the exception path, and that no other domain changes. */
  lemma RecordEffect(s: Stats, o: Observation)
    ensures var r := Record(s, o);
      && o.domain in r.counts
      && r.counts.Keys == s.counts.Keys + {o.domain}
      && Lookup(r.counts, o.domain).total == Lookup(s.counts, o.domain).total + 1
      && (o.probe.Responded? ==>
            Lookup(r.counts, o.domain).up == Lookup(s.counts, o.domain).up + (if IsUp(o.probe) then 1 else 0))
      && (o.probe.Raised? ==> Lookup(r.counts, o.domain).up == Lookup(s.counts, o.domain).up)
      && (forall d :: d != o.domain ==> Lookup(r.counts, d) == Lookup(s.counts, d))
  {
  }

  lemma RecordValid(s: Stats, o: Observation)
    requires Valid(s)
    ensures Valid(Record(s, o))
    ensures Probed(s) ==> Probed(Record(s, o))
  {
  }

  /** Statistics only grow: the key order is extended at its end, no entry
      disappears and no counter goes down. */
  ghost predicate Grows(s: Stats, r: Stats) {
    && |s.order| <= |r.order| && r.order[..|s.order|] == s.order
    && (forall d :: d in s.counts ==>
          d in r.counts && s.counts[d].up <= r.counts[d].up && s.counts[d].total <= r.counts[d].total)
  }

  // ---------------------------------------------------------- many updates

  lemma {:induction false} ApplyAllAppend(s: Stats, xs: seq<Observation>, ys: seq<Observation>)
    ensures ApplyAll(s, xs + ys) == ApplyAll(ApplyAll(s, xs), ys)
    decreases |xs|
  {
    if xs == [] {
      assert xs + ys == ys;
    } else {
      assert (xs + ys)[1..] == xs[1..] + ys;
      ApplyAllAppend(Record(s, xs[0]), xs[1..], ys);
    }
  }

  lemma ApplyAllSnoc(s: Stats, xs: seq<Observation>, x: Observation)
    ensures ApplyAll(s, xs + [x]) == Record(ApplyAll(s, xs), x)
  {
    ApplyAllAppend(s, xs, [x]);
  }

  /** Consistency is kept by every sequence of outcomes, and after at least
      one of them every entry has been counted. */
  lemma {:induction false} ApplyAllValid(s: Stats, xs: seq<Observation>)
    requires Valid(s)
    ensures Valid(ApplyAll(s, xs))
    ensures Probed(s) ==> Probed(ApplyAll(s, xs))
    decreases |xs|
  {
    if xs != [] {
      RecordValid(s, xs[0]);
      ApplyAllValid(Record(s, xs[0]), xs[1..]);
    }
  }

  /** Counters never decrease and domains are never removed or reordered. */
  lemma {:induction false} ApplyAllGrows(s: Stats, xs: seq<Observation>)
    ensures Grows(s, ApplyAll(s, xs))
    decreases |xs|
  {
    if xs == [] {
      assert s.order[..|s.order|] == s.order;
    } else {
      var s1 := Record(s, xs[0]);
      ApplyAllGrows(s1, xs[1..]);
      var r := ApplyAll(s1, xs[1..]);
      assert r.order[..|s1.order|] == s1.order;
      assert s1.order[..|s.order|] == s.order;
      assert r.order[..|s.order|] == r.order[..|s1.order|][..|s.order|];
    }
  }

  // ------------------------------------------------------------ the grand total

  /** The sum of `total` over the domains listed in `order`. */
  function SumTotals(order: seq<string>, m: map<string, Counters>): nat
    decreases |order|
  {
    if order == [] then 0
    else SumTotals(order[..|order| - 1], m) + Lookup(m, order[|order| - 1]).total
  }

  /** The number of checks recorded, over all domains. */
  function Checks(s: Stats): nat {
    SumTotals(s.order, s.counts)
  }

  lemma {:induction false} SumTotalsUnlisted(order: seq<string>, m: map<string, Counters>, d: string, c: Counters)
    requires d !in order
    ensures SumTotals(order, m[d := c]) == SumTotals(order, m)
    decreases |order|
  {
    if order != [] {
      var init := order[..|order| - 1];
      assert d !in init by { assert forall x :: x in init ==> x in order; }
      SumTotalsUnlisted(init, m, d, c);
    }
  }

  lemma {:induction false} SumTotalsListed(order: seq<string>, m: map<string, Counters>, d: string, c: Counters)
    requires NoDup(order) && d in order
    ensures SumTotals(order, m[d := c]) == SumTotals(order, m) - Lookup(m, d).total + c.total
    decreases |order|
  {
    var init, last := order[..|order| - 1], order[|order| - 1];
    assert order == init + [last];
    assert NoDup(init);
    if last == d {
      assert d !in init;
      SumTotalsUnlisted(init, m, d, c);
    } else {
      assert d in init;
      SumTotalsListed(init, m, d, c);
    }
  }

  /** Each outcome adds exactly one check to the grand total. */
  lemma RecordChecks(s: Stats, o: Observation)
    requires Valid(s)
    ensures Checks(Record(s, o)) == Checks(s) + 1
  {
    var d := o.domain;
    var m' := Bump(s.counts, o);
    if d in s.counts {
      SumTotalsListed(s.order, s.counts, d, m'[d]);
    } else {
      var order' := s.order + [d];
      assert order'[..|order'| - 1] == s.order;
      SumTotalsUnlisted(s.order, s.counts, d, m'[d]);
    }
  }

  /** After N outcomes the grand total of checks has risen by exactly N. */
  lemma {:induction false} ApplyAllChecks(s: Stats, xs: seq<Observation>)
    requires Valid(s)
    ensures Checks(ApplyAll(s, xs)) == Checks(s) + |xs|
    decreases |xs|
  {
    if xs != [] {
      RecordChecks(s, xs[0]);
      RecordValid(s, xs[0]);
      ApplyAllChecks(Record(s, xs[0]), xs[1..]);
    }
  }

  // --------------------------------------------------------- order independence

  /** The counters alone after a sequence of outcomes. */
  function Tally(m: map<string, Counters>, xs: seq<Observation>): map<string, Counters>
    decreases |xs|
  {
    if xs == [] then m else Tally(Bump(m, xs[0]), xs[1..])
  }

  lemma {:induction false} ApplyAllCounts(s: Stats, xs: seq<Observation>)
    ensures ApplyAll(s, xs).counts == Tally(s.counts, xs)
    decreases |xs|
  {
    if xs != [] {
      ApplyAllCounts(Record(s, xs[0]), xs[1..]);
    }
  }

  /** Two outcomes give the same counters in either order. */
  lemma BumpCommutes(m: map<string, Counters>, a: Observation, b: Observation)
    ensures Bump(Bump(m, a), b) == Bump(Bump(m, b), a)
  {
  }

  lemma {:induction false} TallyBump(m: map<string, Counters>, a: Observation, xs: seq<Observation>)
    ensures Tally(Bump(m, a), xs) == Bump(Tally(m, xs), a)
    decreases |xs|
  {
    if xs != [] {
      BumpCommutes(m, a, xs[0]);
      TallyBump(Bump(m, xs[0]), a, xs[1..]);
    }
  }

  lemma {:induction false} TallyAppend(m: map<string, Counters>, xs: seq<Observation>, ys: seq<Observation>)
    ensures Tally(m, xs + ys) == Tally(Tally(m, xs), ys)
    decreases |xs|
  {
    if xs == [] {
      assert xs + ys == ys;
    } else {
      assert (xs + ys)[1..] == xs[1..] + ys;
      TallyAppend(Bump(m, xs[0]), xs[1..], ys);
    }
  }

  /** Taking the outcome at position `i` out and applying it last gives the same counters. */
  lemma TallyRemove(m: map<string, Counters>, ys: seq<Observation>, i: nat)
    requires i < |ys|
    ensures Tally(m, ys) == Bump(Tally(m, ys[..i] + ys[i + 1..]), ys[i])
  {
    var ys1, ys2 := ys[..i], ys[i + 1..];
    assert ys == ys1 + ([ys[i]] + ys2);
    assert ([ys[i]] + ys2)[1..] == ys2;
    TallyAppend(m, ys1, [ys[i]] + ys2);
    TallyBump(Tally(m, ys1), ys[i], ys2);
    TallyAppend(m, ys1, ys2);
  }

  /** The counters depend only on which outcomes were applied, not on the
      order in which they arrived. */
  lemma {:induction false} TallyPermutation(m: map<string, Counters>, xs: seq<Observation>, ys: seq<Observation>)
    requires multiset(xs) == multiset(ys)
    ensures Tally(m, xs) == Tally(m, ys)
    decreases |xs|
  {
    if xs == [] {
      assert |ys| == |multiset(ys)| == 0;
    } else {
      var x := xs[0];
      assert x in multiset(ys);
      var i := IndexOf(ys, x);
      RemoveAt(ys, i);
      RemoveAt(xs, 0);
      assert xs[..0] + xs[1..] == xs[1..];
      TallyPermutation(m, xs[1..], ys[..i] + ys[i + 1..]);
      TallyBump(m, x, xs[1..]);
      TallyRemove(m, ys, i);
    }
  }

  /** Applying the same outcomes in any order yields the same counters,
      and, for consistent statistics, the same set of domains. */
  lemma ApplyAllOrderIndependent(s: Stats, xs: seq<Observation>, ys: seq<Observation>)
    requires multiset(xs) == multiset(ys)
    ensures ApplyAll(s, xs).counts == ApplyAll(s, ys).counts
    ensures Valid(s) ==> forall d :: d in ApplyAll(s, xs).order <==> d in ApplyAll(s, ys).order
  {
    ApplyAllCounts(s, xs);
    ApplyAllCounts(s, ys);
    TallyPermutation(s.counts, xs, ys);
    if Valid(s) {
      ApplyAllValid(s, xs);
      ApplyAllValid(s, ys);
    }
  }
}
