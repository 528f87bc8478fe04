/** The availability report (app.py, printAvailability): one line per domain
    that has been checked, in the order the domains were first seen. */
module Reporting {
  import opened Seqs
  import opened Rounding
  import opened Decimal
  import opened Statistics

  /** One reported pair: a domain and its rounded availability percentage. */
  datatype Availability = Availability(domain: string, percent: int)

  /** The reported pairs for the domains listed in `order`, skipping those
      with no checks. */
  function Entries(order: seq<string>, m: map<string, Counters>): seq<Availability>
    decreases |order|
  {
    if order == [] then []
    else
      var d := order[|order| - 1];
      var c := Lookup(m, d);
      Entries(order[..|order| - 1], m)
        + (if c.total > 0 then [Availability(d, Percent(c.up, c.total))] else [])
  }

  function Report(s: Stats): seq<Availability> {
    Entries(s.order, s.counts)
  }

  function Domains(r: seq<Availability>): seq<string> {
    seq(|r|, i requires 0 <= i < |r| => r[i].domain)
  }

  const Infix: string := " has "
  const Suffix: string := "% availability percentage"

  /** The printed line for one pair. */
  function Line(a: Availability): string {
    a.domain + Infix + IntToDecimal(a.percent) + Suffix
  }

  /** The printed lines of a report, in report order. */
  function Lines(r: seq<Availability>): seq<string> {
    seq(|r|, i requires 0 <= i < |r| => Line(r[i]))
  }

  // ------------------------------------------------------------------ lemmas

  /** Every reported pair names a checked domain and carries round(100 * up / total). */
  lemma {:induction false} EntriesSound(order: seq<string>, m: map<string, Counters>)
    ensures forall i :: 0 <= i < |Entries(order, m)| ==>
      var a := Entries(order, m)[i];
      && a.domain in order && a.domain in m && m[a.domain].total > 0
      && a.percent == Percent(m[a.domain].up, m[a.domain].total)
    decreases |order|
  {
    if order != [] {
      var init := order[..|order| - 1];
      EntriesSound(init, m);
      assert forall x :: x in init ==> x in order;
    }
  }

  /** The domains listed in `order` that have at least one check. */
  function Checked(order: seq<string>, m: map<string, Counters>): seq<string>
    decreases |order|
  {
    if order == [] then []
    else
      var d := order[|order| - 1];
      Checked(order[..|order| - 1], m) + (if Lookup(m, d).total > 0 then [d] else [])
  }

  lemma {:induction false} EntriesDomains(order: seq<string>, m: map<string, Counters>)
    ensures Domains(Entries(order, m)) == Checked(order, m)
    decreases |order|
  {
    if order != [] {
      EntriesDomains(order[..|order| - 1], m);
    }
  }

  /** Every domain in `order` with at least one check is reported. */
  lemma {:induction false} CheckedComplete(order: seq<string>, m: map<string, Counters>, d: string)
    requires d in order && Lookup(m, d).total > 0
    ensures d in Checked(order, m)
    decreases |order|
  {
    var init, last := order[..|order| - 1], order[|order| - 1];
    if d != last {
      assert order == init + [last];
      assert d in init;
      CheckedComplete(init, m, d);
    }
  }

  /** The elements of `c` occur in `order`, and in the same relative order. */
  ghost predicate FollowsOrder(c: seq<string>, order: seq<string>) {
    forall i, j :: 0 <= i < j < |c| ==>
      c[i] in order && c[j] in order && IndexOf(order, c[i]) < IndexOf(order, c[j])
  }

  /** Checked domains keep the order in which they were first seen. */
  lemma {:induction false} CheckedOrdered(order: seq<string>, m: map<string, Counters>)
    requires NoDup(order)
    ensures FollowsOrder(Checked(order, m), order)
    decreases |order|
  {
    if order != [] {
      var n := |order| - 1;
      var init, last := order[..n], order[n];
      assert NoDup(init);
      CheckedOrdered(init, m);
      CheckedSubset(init, m);
      var c0 := Checked(init, m);
      var c := Checked(order, m);
      assert IndexOf(order, last) == n;
      forall i | 0 <= i < |c0|
        ensures c[i] == c0[i] && c0[i] in order
        ensures IndexOf(order, c0[i]) == IndexOf(init, c0[i]) < n
      {
        IndexOfPrefix(order, n, c0[i]);
      }
      if |c| > |c0| {
        assert c[|c| - 1] == last;
      } else {
        assert c == c0;
        forall i, j | 0 <= i < j < |c|
          ensures IndexOf(order, c[i]) < IndexOf(order, c[j])
        {
          assert IndexOf(init, c0[i]) < IndexOf(init, c0[j]);
        }
      }
    }
  }

  lemma {:induction false} CheckedSubset(order: seq<string>, m: map<string, Counters>)
    ensures forall i :: 0 <= i < |Checked(order, m)| ==> Checked(order, m)[i] in order
    decreases |order|
  {
    if order != [] {
      var init := order[..|order| - 1];
      CheckedSubset(init, m);
      assert forall x :: x in init ==> x in order;
    }
  }

  /** The report holds exactly the checked domains. */
  lemma ReportDomains(s: Stats)
    requires Valid(s)
    ensures forall d :: d in Domains(Report(s)) <==> d in s.counts && s.counts[d].total > 0
  {
    var r := Report(s);
    EntriesSound(s.order, s.counts);
    EntriesDomains(s.order, s.counts);
    forall d ensures d in Domains(r) <==> d in s.counts && s.counts[d].total > 0 {
      if d in s.counts && s.counts[d].total > 0 {
        CheckedComplete(s.order, s.counts, d);
      }
    }
  }

  /** Each reported percentage is round-half-even of 100 * up / total and
      lies between 0 and 100. */
  lemma ReportPercents(s: Stats)
    requires Valid(s)
    ensures var r := Report(s);
      forall i :: 0 <= i < |r| ==>
        && r[i].domain in s.counts && s.counts[r[i].domain].total > 0
        && r[i].percent == Percent(s.counts[r[i].domain].up, s.counts[r[i].domain].total)
        && 0 <= r[i].percent <= 100
  {
    EntriesSound(s.order, s.counts);
  }

  /** The report lists each domain once, in first-insertion order. */
  lemma ReportOrdered(s: Stats)
    requires Valid(s)
    ensures FollowsOrder(Domains(Report(s)), s.order)
  {
    EntriesDomains(s.order, s.counts);
    CheckedOrdered(s.order, s.counts);
  }

  /** Once every domain has been checked, the report lists all of them, in
      insertion order. */
  lemma {:induction false} CheckedAll(order: seq<string>, m: map<string, Counters>)
    requires forall d :: d in order ==> Lookup(m, d).total > 0
    ensures Checked(order, m) == order
    decreases |order|
  {
    if order != [] {
      var init := order[..|order| - 1];
      assert forall x :: x in init ==> x in order;
      CheckedAll(init, m);
      assert order == init + [order[|order| - 1]];
    }
  }

  lemma ReportCoversAll(s: Stats)
    requires Valid(s) && Probed(s)
    ensures Domains(Report(s)) == s.order
  {
    EntriesDomains(s.order, s.counts);
    CheckedAll(s.order, s.counts);
  }

  lemma LinesAppend(r: seq<Availability>, a: Availability)
    ensures Lines(r + [a]) == Lines(r) + [Line(a)]
  {
  }

  /** Extending the key order by one domain extends the report by at most its pair. */
  lemma EntriesSnoc(order: seq<string>, m: map<string, Counters>, d: string)
    ensures Entries(order + [d], m) == Entries(order, m)
      + (if Lookup(m, d).total > 0 then [Availability(d, Percent(Lookup(m, d).up, Lookup(m, d).total))] else [])
  {
    assert (order + [d])[..|order|] == order;
  }

  /** A line reads "<domain> has <percent>% availability percentage", and the
      percentage can be read back from it. */
  lemma LineFormat(a: Availability)
    requires a.percent >= 0
    ensures var l := Line(a);
      var digits := l[|a.domain| + |Infix| .. |l| - |Suffix|];
      && |l| > |a.domain| + |Infix| + |Suffix|
      && l[..|a.domain|] == a.domain
      && l[|a.domain|..|a.domain| + |Infix|] == Infix
      && l[|l| - |Suffix|..] == Suffix
      && (forall k :: 0 <= k < |digits| ==> IsDigit(digits[k]))
      && (|digits| > 1 ==> digits[0] != '0')
      && DecimalValue(digits) == a.percent
  {
    var l := Line(a);
    var n := NatToDecimal(a.percent);
    assert l == a.domain + Infix + n + Suffix;
    assert l[|a.domain| + |Infix| .. |l| - |Suffix|] == n;
    DecimalRoundTrip(a.percent);
  }
}
