/**
 * The analytics the dashboard page derives from the list of applications:
 * status counts with response and success rates, the status chart's slices,
 * and the per-month submission timeline. All three are pure functions of the
 * list the page fetched.
 */
module Dashboard {
  import opened Dates
  import opened Records

  /*
   * Status counts and rates
   */

  /** The status strings of `apps`, in list order. */
  function Statuses(apps: seq<Application>): (r: seq<string>)
    ensures |r| == |apps|
    ensures forall i :: 0 <= i < |apps| ==> r[i] == apps[i].status
  {
    seq(|apps|, i requires 0 <= i < |apps| => apps[i].status)
  }

  /** The number of records whose status string is exactly `text`. */
  function CountStatus(apps: seq<Application>, text: string): (n: nat)
    ensures n <= |apps|
    ensures n == multiset(Statuses(apps))[text]
  {
    if |apps| == 0 then 0
    else
      assert Statuses(apps) == [apps[0].status] + Statuses(apps[1..]);
      (if apps[0].status == text then 1 else 0) + CountStatus(apps[1..], text)
  }

  /** The number of records carrying status `s`. */
  function CountOf(apps: seq<Application>, s: Status): nat
  {
    CountStatus(apps, Name(s))
  }

  /** The sum of the five per-status counts. */
  function CountAll(apps: seq<Application>): nat
  {
    CountOf(apps, Applied) + CountOf(apps, Interview) + CountOf(apps, Offered)
      + CountOf(apps, Rejected) + CountOf(apps, Ignored)
  }

  /**
   * The five counts never exceed the list length, and add up to it exactly
   * when every record carries one of the five statuses.
   */
  lemma {:induction false} CountAllBounded(apps: seq<Application>)
    ensures CountAll(apps) <= |apps|
    ensures CountAll(apps) == |apps| <==> forall i :: 0 <= i < |apps| ==> WellFormed(apps[i])
  {
    if |apps| > 0 {
      CountAllBounded(apps[1..]);
      var st := apps[0].status;
      if Parse(st).Some? {
        assert CountAll(apps) == CountAll(apps[1..]) + 1;
      } else {
        assert CountAll(apps) == CountAll(apps[1..]);
      }
      if forall i :: 0 <= i < |apps| ==> WellFormed(apps[i]) {
        assert forall i :: 0 <= i < |apps| - 1 ==> apps[1..][i] == apps[i + 1];
      }
      if forall i :: 0 <= i < |apps| - 1 ==> WellFormed(apps[1..][i]) {
        if Parse(st).Some? {
          forall i | 0 <= i < |apps|
            ensures WellFormed(apps[i])
          {
            if i > 0 {
              assert apps[i] == apps[1..][i - 1];
            }
          }
        }
      }
    }
  }

  /** What the dashboard's statistics cards show. */
  datatype Stats = Stats(
    total: nat,
    applied: nat,
    interview: nat,
    offer: nat,
    rejected: nat,
    responseRate: nat,
    successRate: nat)

  /** `r` is the whole percentage nearest to 100 k / n, halves rounded up. */
  predicate IsRoundedPercent(r: nat, k: nat, n: nat)
  {
    n > 0 && 2 * n * r <= 200 * k + n < 2 * n * (r + 1)
  }

  /** Euclidean division brackets its dividend. */
  lemma DivBrackets(x: nat, d: nat)
    requires d > 0
    ensures d * (x / d) <= x < d * (x / d) + d
  {
  }

  /** Multiplying by a positive factor preserves strict order, both ways. */
  lemma MulStrict(d: nat, a: nat, b: nat)
    requires d > 0
    ensures d * a < d * b <==> a < b
  {
    if a < b {
      assert d * b == d * a + d * (b - a);
    } else {
      assert d * a == d * b + d * (a - b);
    }
  }

  /**
   * `Math.round((k / n) * 100)` in exact arithmetic: the whole percentage
   * nearest to 100 k / n, halves rounded up.
   */
  function RoundPercent(k: nat, n: nat): (r: nat)
    requires n > 0
    ensures IsRoundedPercent(r, k, n)
    ensures k <= n ==> r <= 100
  {
    var d, x := 2 * n, 200 * k + n;
    DivBrackets(x, d);
    var q := x / d;
    assert d * (q + 1) == d * q + d;
    if k <= n then
      assert x < d * 101;
      MulStrict(d, q, 101);
      q
    else
      q
  }

  /** More responses never give a lower percentage. */
  lemma RoundPercentMonotone(j: nat, k: nat, n: nat)
    requires n > 0 && j <= k
    ensures RoundPercent(j, n) <= RoundPercent(k, n)
  {
    var rj, rk := RoundPercent(j, n), RoundPercent(k, n);
    assert 2 * n * rj <= 200 * j + n <= 200 * k + n < 2 * n * (rk + 1);
    MulStrict(2 * n, rj, rk + 1);
  }

  /** The statistics record for the given counts, with both rates derived from them. */
  function StatsOf(total: nat, applied: nat, interview: nat, offer: nat, rejected: nat): (s: Stats)
    requires interview + offer + rejected <= total
    ensures s.total == total && s.applied == applied && s.interview == interview
    ensures s.offer == offer && s.rejected == rejected
    ensures total == 0 ==> s.responseRate == 0 && s.successRate == 0
    ensures total > 0 ==> IsRoundedPercent(s.responseRate, interview + offer + rejected, total)
    ensures total > 0 ==> IsRoundedPercent(s.successRate, offer, total)
    ensures s.successRate <= s.responseRate <= 100
  {
    var responses := interview + offer + rejected;
    if total > 0 then
      RoundPercentMonotone(offer, responses, total);
      Stats(total, applied, interview, offer, rejected,
            RoundPercent(responses, total), RoundPercent(offer, total))
    else
      Stats(total, applied, interview, offer, rejected, 0, 0)
  }

  /** The statistics cards: counts per status and the two rates. */
  function CalculateStats(apps: seq<Application>): (s: Stats)
    ensures s.total == |apps|
    ensures s.applied == multiset(Statuses(apps))[Name(Applied)]
    ensures s.interview == multiset(Statuses(apps))[Name(Interview)]
    ensures s.offer == multiset(Statuses(apps))[Name(Offered)]
    ensures s.rejected == multiset(Statuses(apps))[Name(Rejected)]
    ensures s.applied + s.interview + s.offer + s.rejected <= s.total
    ensures s.total == 0 ==> s.responseRate == 0 && s.successRate == 0
    ensures s.total > 0 ==> IsRoundedPercent(s.responseRate, s.interview + s.offer + s.rejected, s.total)
    ensures s.total > 0 ==> IsRoundedPercent(s.successRate, s.offer, s.total)
    ensures s.successRate <= s.responseRate <= 100
  {
    CountAllBounded(apps);
    StatsOf(|apps|, CountOf(apps, Applied), CountOf(apps, Interview),
            CountOf(apps, Offered), CountOf(apps, Rejected))
  }

  /** Concatenating lists adds their per-status counts. */
  lemma CountStatusConcat(a: seq<Application>, b: seq<Application>, text: string)
    ensures CountStatus(a + b, text) == CountStatus(a, text) + CountStatus(b, text)
  {
    assert Statuses(a + b) == Statuses(a) + Statuses(b);
  }

  /** Per-status counts depend only on which records there are, not on their order. */
  lemma {:induction false} CountStatusPermutation(a: seq<Application>, b: seq<Application>, text: string)
    requires multiset(a) == multiset(b)
    ensures CountStatus(a, text) == CountStatus(b, text)
  {
    if |a| == 0 {
      assert |b| == |multiset(b)| == 0;
    } else {
      var x := a[0];
      assert x in multiset(b);
      var j :| 0 <= j < |b| && b[j] == x;
      var rest := b[..j] + b[j + 1..];
      RemoveAt(b, j, text);
      assert a == [x] + a[1..];
      assert multiset(a) == multiset{x} + multiset(a[1..]);
      assert multiset(a[1..]) == multiset(a) - multiset{x};
      CountStatusPermutation(a[1..], rest, text);
      CountStatusConcat([x], a[1..], text);
    }
  }

  /** Removing the record at `j` removes it from the multiset and from its status count. */
  lemma RemoveAt(b: seq<Application>, j: nat, text: string)
    requires j < |b|
    ensures multiset(b[..j] + b[j + 1..]) == multiset(b) - multiset{b[j]}
    ensures CountStatus(b, text) == CountStatus(b[..j] + b[j + 1..], text) + CountStatus([b[j]], text)
  {
    var x := b[j];
    assert b == b[..j] + [x] + b[j + 1..];
    assert multiset(b) == multiset(b[..j]) + multiset{x} + multiset(b[j + 1..]);
    CountStatusConcat(b[..j] + [x], b[j + 1..], text);
    CountStatusConcat(b[..j], [x], text);
    CountStatusConcat(b[..j], b[j + 1..], text);
  }

  /** The statistics depend only on which records there are, not on their order. */
  lemma StatsIgnoreOrder(a: seq<Application>, b: seq<Application>)
    requires multiset(a) == multiset(b)
    ensures CalculateStats(a) == CalculateStats(b)
  {
    assert |a| == |multiset(a)| == |multiset(b)| == |b|;
    CountStatusPermutation(a, b, Name(Applied));
    CountStatusPermutation(a, b, Name(Interview));
    CountStatusPermutation(a, b, Name(Offered));
    CountStatusPermutation(a, b, Name(Rejected));
  }

  /*
   * Status chart
   */

  /** One slice of the status pie chart. */
  datatype Slice = Slice(name: string, value: nat)

  /** The chart's label for each charted status; `Offered` is shown as "Offer". */
  const ChartLabels: seq<string> := ["Applied", "Interview", "Offer", "Rejected"]

  /** The four candidate slices, in the chart's fixed order. */
  function Candidates(s: Stats): (r: seq<Slice>)
    ensures |r| == 4
    ensures forall i :: 0 <= i < 4 ==> r[i].name == ChartLabels[i]
    ensures r[0].value == s.applied && r[1].value == s.interview
    ensures r[2].value == s.offer && r[3].value == s.rejected
  {
    [Slice("Applied", s.applied), Slice("Interview", s.interview),
     Slice("Offer", s.offer), Slice("Rejected", s.rejected)]
  }

  function SumValues(xs: seq<Slice>): nat
  {
    if |xs| == 0 then 0 else xs[0].value + SumValues(xs[1..])
  }

  /** `a` can be obtained from `b` by deleting elements. */
  predicate IsSubsequence<T(==)>(a: seq<T>, b: seq<T>)
    decreases |b|
  {
    if |a| == 0 then true
    else if |b| == 0 then false
    else if a[0] == b[0] then IsSubsequence(a[1..], b[1..])
    else IsSubsequence(a, b[1..])
  }

  /** The slices with a positive value, in their original order. */
  function KeepPositive(xs: seq<Slice>): (r: seq<Slice>)
    ensures IsSubsequence(r, xs)
    ensures forall x :: x in r <==> x in xs && x.value > 0
    ensures SumValues(r) == SumValues(xs)
  {
    if |xs| == 0 then []
    else if xs[0].value > 0 then
      var rest := KeepPositive(xs[1..]);
      assert ([xs[0]] + rest)[1..] == rest;
      [xs[0]] + rest
    else
      var rest := KeepPositive(xs[1..]);
      assert |rest| > 0 ==> rest[0] in rest && rest[0] != xs[0];
      rest
  }

  /**
   * The status distribution: the non-zero counts among Applied, Interview,
   * Offer and Rejected, in that order. Ignored records are never charted.
   */
  function GetStatusData(s: Stats): (r: seq<Slice>)
    ensures IsSubsequence(r, Candidates(s))
    ensures forall e :: e in r ==> e.value > 0 && e.name in ChartLabels && e.name != Name(Ignored)
    ensures Slice("Applied", s.applied) in r <==> s.applied > 0
    ensures Slice("Interview", s.interview) in r <==> s.interview > 0
    ensures Slice("Offer", s.offer) in r <==> s.offer > 0
    ensures Slice("Rejected", s.rejected) in r <==> s.rejected > 0
    ensures SumValues(r) == s.applied + s.interview + s.offer + s.rejected
  {
    var c := Candidates(s);
    assert forall e :: e in c ==> e.name in ChartLabels;
    assert SumValues(c[3..]) == s.rejected;
    assert SumValues(c[2..]) == s.offer + s.rejected;
    assert SumValues(c[1..]) == s.interview + s.offer + s.rejected;
    KeepPositive(c)
  }

  /** The chart never shows more applications than the list holds. */
  lemma StatusDataBounded(apps: seq<Application>)
    ensures SumValues(GetStatusData(CalculateStats(apps))) <= |apps|
  {
  }

  /*
   * Timeline
   */

  /** One bar of the timeline chart: a month label and its application count. */
  datatype MonthCount = MonthCount(month: string, applications: nat)

  /** The labels of a timeline, in order. */
  function Months(t: seq<MonthCount>): (r: seq<string>)
    ensures |r| == |t|
    ensures forall i :: 0 <= i < |t| ==> r[i] == t[i].month
  {
    if |t| == 0 then [] else [t[0].month] + Months(t[1..])
  }

  function SumCounts(t: seq<MonthCount>): nat
  {
    if |t| == 0 then 0 else t[0].applications + SumCounts(t[1..])
  }

  /** The position at which `x` first occurs in `s`. */
  function FirstIndex<T(==)>(s: seq<T>, x: T): (i: nat)
    requires x in s
    ensures i < |s| && s[i] == x && x !in s[..i]
  {
    if s[0] == x then 0 else 1 + FirstIndex(s[1..], x)
  }

  /**
   * One step of the `forEach`: `byMonth[monthYear] = (byMonth[monthYear] || 0) + 1`
   * on an object whose entries keep insertion order.
   */
  function Bump(t: seq<MonthCount>, key: string): (r: seq<MonthCount>)
    ensures key in Months(t) ==> |r| == |t|
    ensures key !in Months(t) ==> |r| == |t| + 1
  {
    if |t| == 0 then [MonthCount(key, 1)]
    else if t[0].month == key then [MonthCount(key, t[0].applications + 1)] + t[1..]
    else [t[0]] + Bump(t[1..], key)
  }

  /** Counting `key` keeps the labels, appending `key` when it is new. */
  lemma {:induction false} BumpMonths(t: seq<MonthCount>, key: string)
    ensures key in Months(t) ==> Months(Bump(t, key)) == Months(t)
    ensures key !in Months(t) ==> Months(Bump(t, key)) == Months(t) + [key]
  {
    if |t| > 0 {
      var r := Bump(t, key);
      assert Months(t) == [t[0].month] + Months(t[1..]);
      assert Months(r) == [r[0].month] + Months(r[1..]);
      if t[0].month == key {
        assert r[1..] == t[1..];
      } else {
        assert r[1..] == Bump(t[1..], key);
        BumpMonths(t[1..], key);
      }
    }
  }

  /**
   * Counting `key` adds one to the entry labelled `key`, or appends an entry
   * with count 1 when there is none; every other entry keeps its count.
   */
  lemma {:induction false} BumpCounts(t: seq<MonthCount>, key: string)
    requires Distinct(Months(t))
    ensures forall i :: 0 <= i < |t| ==>
      Bump(t, key)[i].applications == t[i].applications + (if t[i].month == key then 1 else 0)
    ensures key !in Months(t) ==> |Bump(t, key)| == |t| + 1 && Bump(t, key)[|t|] == MonthCount(key, 1)
  {
    if |t| > 0 {
      var r := Bump(t, key);
      DistinctMonthsTail(t);
      if t[0].month != key {
        BumpCounts(t[1..], key);
        assert forall i :: 1 <= i < |t| ==> r[i] == Bump(t[1..], key)[i - 1];
      }
    }
  }

  /** With distinct labels, the head's label is not repeated and the tail's labels stay distinct. */
  lemma {:induction false} DistinctMonthsTail(t: seq<MonthCount>)
    requires |t| > 0 && Distinct(Months(t))
    ensures forall i :: 1 <= i < |t| ==> t[i].month != t[0].month
    ensures Distinct(Months(t[1..]))
  {
    var m := Months(t);
    DistinctTail(m);
    assert Months(t[1..]) == m[1..];
  }

  /** Counting one more label adds one to the total of the counts. */
  lemma {:induction false} BumpSum(t: seq<MonthCount>, key: string)
    ensures SumCounts(Bump(t, key)) == SumCounts(t) + 1
  {
    if |t| > 0 {
      var r := Bump(t, key);
      if t[0].month == key {
        assert r[1..] == t[1..];
      } else {
        assert r[1..] == Bump(t[1..], key);
        BumpSum(t[1..], key);
      }
    }
  }

  /** The first occurrence is the only index holding `x` with no `x` before it. */
  lemma FirstIndexUnique<T>(s: seq<T>, x: T, i: nat)
    requires i < |s| && s[i] == x && x !in s[..i]
    ensures FirstIndex(s, x) == i
  {
  }

  /** Appending never moves the first occurrence of an element already present. */
  lemma FirstIndexAppendKept<T>(s: seq<T>, x: T, k: T)
    requires k in s
    ensures FirstIndex(s + [x], k) == FirstIndex(s, k)
  {
    var i := FirstIndex(s, k);
    assert (s + [x])[..i] == s[..i];
    FirstIndexUnique(s + [x], k, i);
  }

  /** An appended element that is new first occurs at the end. */
  lemma FirstIndexAppendNew<T>(s: seq<T>, x: T)
    requires x !in s
    ensures FirstIndex(s + [x], x) == |s|
  {
    assert (s + [x])[..|s|] == s;
    FirstIndexUnique(s + [x], x, |s|);
  }

  /**
   * The `byMonth` object after the `forEach` over `labels`, as its
   * `Object.entries`: one entry per distinct label, and no other.
   */
  function Tally(labels: seq<string>): (r: seq<MonthCount>)
    ensures Distinct(Months(r))
    ensures forall m :: m in Months(r) <==> m in labels
  {
    if |labels| == 0 then []
    else
      var prefix, key := labels[..|labels| - 1], labels[|labels| - 1];
      assert labels == prefix + [key];
      var t := Tally(prefix);
      BumpMonths(t, key);
      Bump(t, key)
  }

  /** Each entry of `t` counts exactly the occurrences of its label in `labels`. */
  predicate CountsOccurrences(t: seq<MonthCount>, labels: seq<string>)
  {
    forall i :: 0 <= i < |t| ==> t[i].applications == multiset(labels)[t[i].month] >= 1
  }

  /** Counting one more label keeps every entry equal to its label's occurrences. */
  lemma BumpCountsOccurrences(t: seq<MonthCount>, prefix: seq<string>, key: string)
    requires Distinct(Months(t))
    requires forall m :: m in Months(t) <==> m in prefix
    requires CountsOccurrences(t, prefix)
    ensures CountsOccurrences(Bump(t, key), prefix + [key])
  {
    var r := Bump(t, key);
    BumpMonths(t, key);
    BumpCounts(t, key);
    assert multiset(prefix + [key]) == multiset(prefix) + multiset{key};
    forall i | 0 <= i < |r|
      ensures r[i].applications == multiset(prefix + [key])[r[i].month] >= 1
    {
      assert Months(r)[i] == r[i].month;
      if i < |t| {
        assert Months(r)[i] == Months(t)[i];
        assert Months(t)[i] in Months(t);
      } else {
        assert key !in prefix;
      }
    }
  }

  /** Each entry counts exactly the occurrences of its label, so at least one. */
  lemma {:induction false} TallyCounts(labels: seq<string>)
    ensures CountsOccurrences(Tally(labels), labels)
  {
    if |labels| > 0 {
      var prefix, key := labels[..|labels| - 1], labels[|labels| - 1];
      assert labels == prefix + [key];
      TallyCounts(prefix);
      BumpCountsOccurrences(Tally(prefix), prefix, key);
    }
  }

  /** The labels `ms` all occur in `labels` and are ordered by their first occurrence there. */
  predicate InFirstSeenOrder(ms: seq<string>, labels: seq<string>)
  {
    && (forall m :: m in ms ==> m in labels)
    && (forall i, j :: 0 <= i < j < |ms| ==>
          ms[i] in labels && ms[j] in labels && FirstIndex(labels, ms[i]) < FirstIndex(labels, ms[j]))
  }

  /** Appending to the input keeps first-seen order, and a new label may follow the others. */
  lemma InFirstSeenOrderAppend(ms: seq<string>, labels: seq<string>, key: string)
    requires InFirstSeenOrder(ms, labels)
    ensures InFirstSeenOrder(ms, labels + [key])
    ensures key !in labels ==> InFirstSeenOrder(ms + [key], labels + [key])
  {
    forall m | m in ms
      ensures FirstIndex(labels + [key], m) == FirstIndex(labels, m)
    {
      FirstIndexAppendKept(labels, key, m);
    }
    if key !in labels {
      FirstIndexAppendNew(labels, key);
      var ms' := ms + [key];
      forall i, j | 0 <= i < j < |ms'|
        ensures FirstIndex(labels + [key], ms'[i]) < FirstIndex(labels + [key], ms'[j])
      {
        assert ms'[i] == ms[i];
        if j < |ms| {
          assert ms'[j] == ms[j];
        }
      }
    }
  }

  /** The entries are listed in the order their labels first occur in the input. */
  lemma {:induction false} TallyFirstSeenOrder(labels: seq<string>)
    ensures InFirstSeenOrder(Months(Tally(labels)), labels)
  {
    if |labels| > 0 {
      var prefix, key := labels[..|labels| - 1], labels[|labels| - 1];
      assert labels == prefix + [key];
      var t := Tally(prefix);
      TallyFirstSeenOrder(prefix);
      BumpMonths(t, key);
      InFirstSeenOrderAppend(Months(t), prefix, key);
    }
  }

  /** The counts add up to the number of labels counted. */
  lemma {:induction false} TallySum(labels: seq<string>)
    ensures SumCounts(Tally(labels)) == |labels|
  {
    if |labels| > 0 {
      TallySum(labels[..|labels| - 1]);
      BumpSum(Tally(labels[..|labels| - 1]), labels[|labels| - 1]);
    }
  }

  /** Counting a label that was already seen leaves the label order unchanged. */
  lemma TallyAppendSeen(labels: seq<string>, key: string)
    requires key in labels
    ensures Months(Tally(labels + [key])) == Months(Tally(labels))
  {
    assert (labels + [key])[..|labels|] == labels;
    BumpMonths(Tally(labels), key);
  }

  /** Counting a label with no entry appends an entry for it with count 1. */
  lemma {:induction false} BumpNew(t: seq<MonthCount>, key: string)
    requires key !in Months(t)
    ensures Bump(t, key) == t + [MonthCount(key, 1)]
  {
    if |t| > 0 {
      assert Months(t) == [t[0].month] + Months(t[1..]);
      BumpNew(t[1..], key);
      calc {
        Bump(t, key);
        [t[0]] + Bump(t[1..], key);
        [t[0]] + (t[1..] + [MonthCount(key, 1)]);
        ([t[0]] + t[1..]) + [MonthCount(key, 1)];
        { assert t == [t[0]] + t[1..]; }
        t + [MonthCount(key, 1)];
      }
    }
  }

  /** Counting a new label appends it as the last entry, with count 1. */
  lemma TallyAppendNew(labels: seq<string>, key: string)
    requires key !in labels
    ensures Tally(labels + [key]) == Tally(labels) + [MonthCount(key, 1)]
  {
    assert (labels + [key])[..|labels|] == labels;
    BumpNew(Tally(labels), key);
  }

  /** The bucket label of every record, in list order. */
  function MonthLabels(apps: seq<Application>): (r: seq<string>)
    ensures |r| == |apps|
    ensures forall i :: 0 <= i < |apps| ==> r[i] == MonthLabel(apps[i].dateApplied)
  {
    seq(|apps|, i requires 0 <= i < |apps| => MonthLabel(apps[i].dateApplied))
  }

  /**
   * The timeline chart data: one entry per distinct "Mon YYYY" label, in the
   * order the labels first occur in the list (not calendar order), each
   * counting the records with that label.
   */
  function GetTimelineData(apps: seq<Application>): (r: seq<MonthCount>)
    ensures Distinct(Months(r))
    ensures forall m :: m in Months(r) <==> m in MonthLabels(apps)
    ensures InFirstSeenOrder(Months(r), MonthLabels(apps))
    ensures CountsOccurrences(r, MonthLabels(apps))
    ensures SumCounts(r) == |apps|
    ensures |apps| == 0 <==> r == []
  {
    var labels := MonthLabels(apps);
    TallyCounts(labels);
    TallyFirstSeenOrder(labels);
    TallySum(labels);
    assert |apps| > 0 ==> Months(Tally(labels)) != [] by {
      if |apps| > 0 {
        assert labels[0] in labels;
      }
    }
    Tally(labels)
  }

  /** The number of records submitted in the given calendar month. */
  function CountInMonth(apps: seq<Application>, year: nat, month: Month): (n: nat)
    ensures n <= |apps|
  {
    if |apps| == 0 then 0
    else
      var d := apps[0].dateApplied;
      (if d.year == year && d.month == month then 1 else 0) + CountInMonth(apps[1..], year, month)
  }

  /** A bucket label occurs once per record submitted in that calendar month. */
  lemma {:induction false} LabelOccurrences(apps: seq<Application>, d: Timestamp)
    ensures multiset(MonthLabels(apps))[MonthLabel(d)] == CountInMonth(apps, d.year, d.month)
  {
    if |apps| > 0 {
      assert MonthLabels(apps) == [MonthLabel(apps[0].dateApplied)] + MonthLabels(apps[1..]);
      MonthLabelInjective(apps[0].dateApplied, d);
      LabelOccurrences(apps[1..], d);
    }
  }

  /** Each timeline bar counts exactly the records submitted in its calendar month. */
  lemma TimelineCountsRecordsInMonth(apps: seq<Application>, i: nat, k: nat)
    requires i < |GetTimelineData(apps)| && k < |apps|
    requires GetTimelineData(apps)[i].month == MonthLabel(apps[k].dateApplied)
    ensures GetTimelineData(apps)[i].applications
      == CountInMonth(apps, apps[k].dateApplied.year, apps[k].dateApplied.month)
  {
    LabelOccurrences(apps, apps[k].dateApplied);
  }

  /**
   * Appending a record from a month already present leaves the timeline's
   * labels, and their order, unchanged.
   */
  lemma TimelineAppendSeen(apps: seq<Application>, a: Application, k: nat)
    requires k < |apps|
    requires apps[k].dateApplied.year == a.dateApplied.year
    requires apps[k].dateApplied.month == a.dateApplied.month
    ensures Months(GetTimelineData(apps + [a])) == Months(GetTimelineData(apps))
  {
    var key := MonthLabel(a.dateApplied);
    MonthLabelInjective(apps[k].dateApplied, a.dateApplied);
    assert MonthLabels(apps)[k] == key;
    assert MonthLabels(apps + [a]) == MonthLabels(apps) + [key];
    TallyAppendSeen(MonthLabels(apps), key);
  }

  /**
   * Appending a record from a month not yet present adds its label as the
   * last bar, with count 1, and leaves the other bars as they were.
   */
  lemma TimelineAppendNew(apps: seq<Application>, a: Application)
    requires forall k :: 0 <= k < |apps| ==>
      apps[k].dateApplied.year != a.dateApplied.year || apps[k].dateApplied.month != a.dateApplied.month
    ensures GetTimelineData(apps + [a])
      == GetTimelineData(apps) + [MonthCount(MonthLabel(a.dateApplied), 1)]
  {
    var key := MonthLabel(a.dateApplied);
    forall k | 0 <= k < |apps|
      ensures MonthLabels(apps)[k] != key
    {
      MonthLabelInjective(apps[k].dateApplied, a.dateApplied);
    }
    assert MonthLabels(apps + [a]) == MonthLabels(apps) + [key];
    TallyAppendNew(MonthLabels(apps), key);
  }
}
