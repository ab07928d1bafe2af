/**
 * The dashboard computes its analytics from the list the GET endpoint
 * returns. This module states what that composition guarantees.
 */
module DashboardFeed {
  import opened Wrappers
  import opened Dates
  import opened Records
  import opened Dashboard
  import opened ApplicationsRoute

  /** The position of a timestamp's month on the calendar, counting from year 0. */
  function MonthIndex(d: Timestamp): nat
  {
    d.year * 12 + (d.month - 1)
  }

  /** The statistics cards show the same numbers whatever order the store lists records in. */
  lemma StatsOfListedApplications(store: seq<Application>)
    ensures CalculateStats(Get(store, true).payload.apps) == CalculateStats(store)
  {
    StatsIgnoreOrder(Get(store, true).payload.apps, store);
  }

  /**
   * Fed a newest-first list, the timeline's first-seen order is strictly
   * reverse-chronological: every record of an earlier bar was submitted in a
   * later calendar month than every record of a later bar.
   */
  lemma {:induction false} TimelineOfNewestFirstList(apps: seq<Application>, i: nat, j: nat, a: Application, b: Application)
    requires NewestFirst(apps)
    requires i < j < |GetTimelineData(apps)|
    requires a in apps && b in apps
    requires MonthLabel(a.dateApplied) == GetTimelineData(apps)[i].month
    requires MonthLabel(b.dateApplied) == GetTimelineData(apps)[j].month
    ensures MonthIndex(a.dateApplied) > MonthIndex(b.dateApplied)
  {
    var r, labels := GetTimelineData(apps), MonthLabels(apps);
    var mi, mj := Months(r)[i], Months(r)[j];
    assert mi != mj;
    var fi, fj := FirstIndex(labels, mi), FirstIndex(labels, mj);
    assert fi < fj;
    var da, db := apps[fi].dateApplied, apps[fj].dateApplied;
    MonthLabelInjective(a.dateApplied, da);
    MonthLabelInjective(b.dateApplied, db);
    MonthLabelInjective(da, db);
    assert AtOrAfter(da, db);
  }

  /*
   * The page stores whatever JSON the list request returned, error object
   * included, and the statistics then call `filter` on it.
   */

  /**
   * The statistics as the page computes them from a fetched payload. On an
   * error object, `applications?.length ?? 0` yields 0 but
   * `applications?.filter` is not a function, so rendering throws: `None`.
   */
  function StatsOfPayloadAsWritten(p: Payload): (r: Option<Stats>)
    ensures p.Many? ==> r == Some(CalculateStats(p.apps))
    ensures !p.Many? ==> r.None?
  {
    match p
    case Many(apps) => Some(CalculateStats(apps))
    case _ => None
  }

  /** A failed list request makes the dashboard's statistics throw. */
  lemma FailedListCrashesStats(store: seq<Application>)
    ensures StatsOfPayloadAsWritten(Get(store, false).payload) == None
  {
  }

  /**
   * The statistics with a non-list payload read as no applications, which is
   * what the `?? 0` fallbacks evidently intend.
   */
  function StatsOfPayload(p: Payload): (s: Stats)
    ensures p.Many? ==> s == CalculateStats(p.apps)
    ensures !p.Many? ==> s.total == 0 && s.responseRate == 0 && s.successRate == 0
    ensures !p.Many? ==> s.applied == 0 && s.interview == 0 && s.offer == 0 && s.rejected == 0
  {
    match p
    case Many(apps) => CalculateStats(apps)
    case _ => CalculateStats([])
  }

  /**
   * With the corrected reading the dashboard always has statistics: those of
   * the store when the list request succeeds, all zero when it fails.
   */
  lemma ListResponseGivesStats(store: seq<Application>, storeAvailable: bool)
    ensures storeAvailable ==> StatsOfPayload(Get(store, storeAvailable).payload) == CalculateStats(store)
    ensures !storeAvailable ==> StatsOfPayload(Get(store, storeAvailable).payload).total == 0
  {
    if storeAvailable {
      StatsOfListedApplications(store);
    }
  }
}
