/** Worked instances of the dashboard analytics and the create defaults. */
module Scenarios {
  import opened Wrappers
  import opened Dates
  import opened Records
  import opened Dashboard
  import opened ApplicationsRoute

  /** 4 Applied, 3 Interview, 1 Offered, 2 Rejected: 60% responses, 10% offers. */
  lemma RatesOfTenApplications(apps: seq<Application>)
    requires Statuses(apps) == ["Applied", "Applied", "Applied", "Applied", "Interview", "Interview",
                                "Interview", "Offered", "Rejected", "Rejected"]
    ensures CalculateStats(apps).responseRate == 60
    ensures CalculateStats(apps).successRate == 10
  {
    var m := multiset(Statuses(apps));
    assert m == multiset{"Applied", "Applied", "Applied", "Applied", "Interview", "Interview",
                         "Interview", "Offered", "Rejected", "Rejected"};
    assert m["Interview"] == 3 && m["Offered"] == 1 && m["Rejected"] == 2;
    var s := CalculateStats(apps);
    assert IsRoundedPercent(s.responseRate, 6, 10);
    assert IsRoundedPercent(s.successRate, 1, 10);
  }

  /** 2 Applied, 1 Offered, 3 Ignored: zero counts are dropped and Ignored is never charted. */
  lemma DistributionSkipsZeroAndIgnored(apps: seq<Application>)
    requires Statuses(apps) == ["Applied", "Ignored", "Offered", "Ignored", "Applied", "Ignored"]
    ensures GetStatusData(CalculateStats(apps)) == [Slice("Applied", 2), Slice("Offer", 1)]
  {
    var m := multiset(Statuses(apps));
    assert m == multiset{"Applied", "Ignored", "Offered", "Ignored", "Applied", "Ignored"};
    assert m["Applied"] == 2 && m["Interview"] == 0 && m["Offered"] == 1 && m["Rejected"] == 0;
    ChartOfTwoStatuses(CalculateStats(apps));
  }

  /** Counts 2, 0, 1, 0 chart as the Applied and Offer slices only. */
  lemma ChartOfTwoStatuses(s: Stats)
    requires s.applied == 2 && s.interview == 0 && s.offer == 1 && s.rejected == 0
    ensures GetStatusData(s) == [Slice("Applied", 2), Slice("Offer", 1)]
  {
    var c := [Slice("Applied", 2), Slice("Interview", 0), Slice("Offer", 1), Slice("Rejected", 0)];
    assert Candidates(s) == c;
    assert c[3..][1..] == [];
    assert KeepPositive(c[3..]) == [];
    assert c[2..][1..] == c[3..];
    assert KeepPositive(c[2..]) == [Slice("Offer", 1)];
    assert c[1..][1..] == c[2..];
    assert KeepPositive(c[1..]) == [Slice("Offer", 1)];
  }

  /**
   * Input months A, B, A (A and B different, e.g. Mar 2024, Jan 2024, Mar 2024)
   * give the bars A with 2 then B with 1, whatever the calendar order of A and B.
   */
  lemma TimelineFollowsFirstSeenOrder(apps: seq<Application>)
    requires |apps| == 3
    requires apps[0].dateApplied.year == apps[2].dateApplied.year
    requires apps[0].dateApplied.month == apps[2].dateApplied.month
    requires apps[0].dateApplied.year != apps[1].dateApplied.year
      || apps[0].dateApplied.month != apps[1].dateApplied.month
    ensures GetTimelineData(apps)
      == [MonthCount(MonthLabel(apps[0].dateApplied), 2), MonthCount(MonthLabel(apps[1].dateApplied), 1)]
  {
    var x, y := MonthLabel(apps[0].dateApplied), MonthLabel(apps[1].dateApplied);
    MonthLabelInjective(apps[0].dateApplied, apps[2].dateApplied);
    MonthLabelInjective(apps[0].dateApplied, apps[1].dateApplied);
    assert MonthLabels(apps) == [x, y, x];
    assert [x, y, x][..2] == [x, y] && [x, y][..1] == [x];
    assert Tally([x]) == [MonthCount(x, 1)];
    assert Bump([MonthCount(x, 1)], y) == [MonthCount(x, 1)] + Bump([], y);
    assert Tally([x, y]) == [MonthCount(x, 1), MonthCount(y, 1)];
    assert Bump([MonthCount(x, 1), MonthCount(y, 1)], x) == [MonthCount(x, 2), MonthCount(y, 1)];
  }

  /** A body with only company and position gets status "Applied" and the current time. */
  lemma CreateWithDefaults(now: Timestamp)
    ensures var body := Body(Some("A"), Some("B"), None, None, None, None, None, None, map[]);
      var d := CreateData(body, now);
      d.status == "Applied" && d.dateApplied == now
  {
  }
}
