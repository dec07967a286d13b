/** The wellbeing (mood) router: the date-window listing and the summary
    statistics. Scores are exact reals and dates are day numbers; the
    two-decimal rounding of the reported averages is not represented. */
module Mood {

  import opened Common
  import opened Sequences

  /** The nine optional wellbeing scales recorded beside the mood score. */
  datatype Metric = Energy | Stress | Anxiety | Rumination | Anger | GeneralHealth | SleepQuality | Sweating | Libido

  datatype MoodEntry = MoodEntry(
    id: int,
    date: Day,
    time: int,
    moodScore: real,
    energyLevel: Option<real>,
    stressLevel: Option<real>,
    anxietyLevel: Option<real>,
    ruminationLevel: Option<real>,
    angerLevel: Option<real>,
    generalHealth: Option<real>,
    sleepQuality: Option<real>,
    sweatingLevel: Option<real>,
    libidoLevel: Option<real>,
    notes: Option<string>)
  {
    /** The entry's value for an optional scale, None when not recorded. */
    function Reading(m: Metric): Option<real>
    {
      match m
      case Energy => energyLevel
      case Stress => stressLevel
      case Anxiety => anxietyLevel
      case Rumination => ruminationLevel
      case Anger => angerLevel
      case GeneralHealth => generalHealth
      case SleepQuality => sleepQuality
      case Sweating => sweatingLevel
      case Libido => libidoLevel
    }
  }

  datatype MoodStats = MoodStats(
    averageMood: real,
    averageEnergy: Option<real>,
    averageStress: Option<real>,
    averageAnxiety: Option<real>,
    averageRumination: Option<real>,
    averageAnger: Option<real>,
    averageGeneralHealth: Option<real>,
    averageSleepQuality: Option<real>,
    averageSweating: Option<real>,
    averageLibido: Option<real>,
    totalEntries: nat,
    rangeStart: Option<Day>,
    rangeEnd: Option<Day>)
  {
    /** The reported average of an optional scale. */
    function AverageOf(m: Metric): Option<real>
    {
      match m
      case Energy => averageEnergy
      case Stress => averageStress
      case Anxiety => averageAnxiety
      case Rumination => averageRumination
      case Anger => averageAnger
      case GeneralHealth => averageGeneralHealth
      case SleepQuality => averageSleepQuality
      case Sweating => averageSweating
      case Libido => averageLibido
    }
  }

  // ---------------------------------------------------------------------
  // Sums, means and extremes of real sequences

  function Sum(xs: seq<real>): real
  {
    if |xs| == 0 then 0.0 else xs[0] + Sum(xs[1..])
  }

  function Mean(xs: seq<real>): real
    requires |xs| > 0
  {
    Sum(xs) / |xs| as real
  }

  function MinOf(xs: seq<real>): (lo: real)
    requires |xs| > 0
    ensures lo in xs
    ensures forall i :: 0 <= i < |xs| ==> lo <= xs[i]
  {
    if |xs| == 1 then xs[0]
    else
      var rest := MinOf(xs[1..]);
      assert forall i :: 1 <= i < |xs| ==> xs[i] == xs[1..][i - 1];
      if xs[0] <= rest then xs[0] else rest
  }

  function MaxOf(xs: seq<real>): (hi: real)
    requires |xs| > 0
    ensures hi in xs
    ensures forall i :: 0 <= i < |xs| ==> xs[i] <= hi
  {
    if |xs| == 1 then xs[0]
    else
      var rest := MaxOf(xs[1..]);
      assert forall i :: 1 <= i < |xs| ==> xs[i] == xs[1..][i - 1];
      if rest <= xs[0] then xs[0] else rest
  }

  /** A sum lies between the count times the smallest and the count times
      the largest summand. */
  lemma {:induction false} SumBounds(xs: seq<real>, lo: real, hi: real)
    requires forall i :: 0 <= i < |xs| ==> lo <= xs[i] <= hi
    ensures |xs| as real * lo <= Sum(xs) <= |xs| as real * hi
  {
    if |xs| > 0 {
      SumBounds(xs[1..], lo, hi);
    }
  }

  /** A ratio `m = sum / n` lies between `lo` and `hi` when `sum` lies
      between `n * lo` and `n * hi`. */
  lemma RatioBetween(sum: real, n: real, lo: real, hi: real)
    requires n > 0.0
    requires n * lo <= sum <= n * hi
    ensures lo <= sum / n <= hi
  {
  }

  /** A mean lies within any bounds that hold for every value averaged. */
  lemma MeanWithin(xs: seq<real>, lo: real, hi: real)
    requires |xs| > 0
    requires forall i :: 0 <= i < |xs| ==> lo <= xs[i] <= hi
    ensures lo <= Mean(xs) <= hi
  {
    var n := |xs| as real;
    var sum := Sum(xs);
    SumBounds(xs, lo, hi);
    RatioBetween(sum, n, lo, hi);
  }

  /** The mean of a non-empty sequence lies between its minimum and its
      maximum. */
  lemma MeanBounds(xs: seq<real>)
    requires |xs| > 0
    ensures MinOf(xs) <= Mean(xs) <= MaxOf(xs)
  {
    MeanWithin(xs, MinOf(xs), MaxOf(xs));
  }

  // ---------------------------------------------------------------------
  // Contributions

  /** All mood scores, in entry order. */
  function MoodScores(entries: seq<MoodEntry>): (xs: seq<real>)
    ensures |xs| == |entries|
    ensures forall i :: 0 <= i < |entries| ==> xs[i] == entries[i].moodScore
  {
    seq(|entries|, i requires 0 <= i < |entries| => entries[i].moodScore)
  }

  /** The recorded values of scale `m`, skipping entries where it is null,
      in entry order. */
  function Readings(entries: seq<MoodEntry>, m: Metric): (xs: seq<real>)
    ensures |xs| <= |entries|
  {
    if |entries| == 0 then []
    else
      var rest := Readings(entries[1..], m);
      match entries[0].Reading(m)
      case Some(x) => [x] + rest
      case None => rest
  }

  /** Readings skip exactly the entries that did not record the scale. */
  lemma {:induction false} ReadingsCount(entries: seq<MoodEntry>, m: Metric)
    ensures |Readings(entries, m)| == Count(entries, (e: MoodEntry) => e.Reading(m).Some?)
  {
    if |entries| > 0 {
      ReadingsCount(entries[1..], m);
      assert entries == [entries[0]] + entries[1..];
      CountConcat([entries[0]], entries[1..], (e: MoodEntry) => e.Reading(m).Some?);
    }
  }

  /** The reported average of scale `m` over `entries`. */
  function MetricAverage(entries: seq<MoodEntry>, m: Metric): (r: Option<real>)
    ensures r.None? <==> |Readings(entries, m)| == 0 || Sum(Readings(entries, m)) == 0.0
    ensures r.Some? ==> r.value == Sum(Readings(entries, m)) / |Readings(entries, m)| as real
  {
    ReportedAverage(Readings(entries, m))
  }

  /** A reported optional average: the mean of the recorded values, dropped
      both when nothing was recorded and when the mean is zero (the source
      tests the average's truthiness). */
  function ReportedAverage(xs: seq<real>): (r: Option<real>)
    ensures r.None? <==> |xs| == 0 || Sum(xs) == 0.0
    ensures r.Some? ==> r.value == Sum(xs) / |xs| as real
  {
    if |xs| == 0 then None
    else
      var avg := Mean(xs);
      if avg != 0.0 then Some(avg) else None
  }

  function DateOf(e: MoodEntry): Day { e.date }

  function EarliestDate(entries: seq<MoodEntry>): (d: Day)
    requires |entries| > 0
    ensures exists i :: 0 <= i < |entries| && entries[i].date == d
    ensures forall i :: 0 <= i < |entries| ==> d <= entries[i].date
  {
    MinBy(entries, DateOf)
  }

  function LatestDate(entries: seq<MoodEntry>): (d: Day)
    requires |entries| > 0
    ensures exists i :: 0 <= i < |entries| && entries[i].date == d
    ensures forall i :: 0 <= i < |entries| ==> entries[i].date <= d
  {
    MaxBy(entries, DateOf)
  }

  // ---------------------------------------------------------------------
  // The endpoints

  /** Whether an entry passes the optional `start_date` / `end_date`
      filters. */
  predicate InWindow(e: MoodEntry, start: Option<Day>, end: Option<Day>)
  {
    (start.None? || start.value <= e.date) && (end.None? || e.date <= end.value)
  }

  function Window(entries: seq<MoodEntry>, start: Option<Day>, end: Option<Day>): seq<MoodEntry>
  {
    Filter(entries, (e: MoodEntry) => InWindow(e, start, end))
  }

  /** The summary over an already filtered set of entries. */
  function Summarise(entries: seq<MoodEntry>): (r: MoodStats)
    ensures r.totalEntries == |entries|
    ensures |entries| == 0 ==> r.averageMood == 0.0 && r.rangeStart.None? && r.rangeEnd.None?
    ensures |entries| > 0 ==> r.averageMood == Sum(MoodScores(entries)) / |entries| as real
    ensures forall m :: r.AverageOf(m) == MetricAverage(entries, m)
    ensures |entries| > 0 ==> r.rangeStart.Some? && r.rangeEnd.Some? && r.rangeStart.value <= r.rangeEnd.value
    ensures r.rangeStart.Some? ==> exists i :: 0 <= i < |entries| && entries[i].date == r.rangeStart.value
    ensures r.rangeStart.Some? ==> forall i :: 0 <= i < |entries| ==> r.rangeStart.value <= entries[i].date
    ensures r.rangeEnd.Some? ==> exists i :: 0 <= i < |entries| && entries[i].date == r.rangeEnd.value
    ensures r.rangeEnd.Some? ==> forall i :: 0 <= i < |entries| ==> entries[i].date <= r.rangeEnd.value
  {
    if |entries| == 0 then
      MoodStats(0.0, None, None, None, None, None, None, None, None, None, 0, None, None)
    else
      MoodStats(
        Mean(MoodScores(entries)),
        MetricAverage(entries, Energy),
        MetricAverage(entries, Stress),
        MetricAverage(entries, Anxiety),
        MetricAverage(entries, Rumination),
        MetricAverage(entries, Anger),
        MetricAverage(entries, GeneralHealth),
        MetricAverage(entries, SleepQuality),
        MetricAverage(entries, Sweating),
        MetricAverage(entries, Libido),
        |entries|,
        Some(EarliestDate(entries)),
        Some(LatestDate(entries)))
  }

  /** `get_mood_stats`: the summary of the entries inside the optional date
      window. */
  function GetMoodStats(entries: seq<MoodEntry>, start: Option<Day>, end: Option<Day>): (r: MoodStats)
    ensures r.totalEntries == Count(entries, (e: MoodEntry) => InWindow(e, start, end))
    ensures r.rangeStart.Some? ==> start.None? || start.value <= r.rangeStart.value
    ensures r.rangeEnd.Some? ==> end.None? || r.rangeEnd.value <= end.value
  {
    var w := Window(entries, start, end);
    var r := Summarise(w);
    assert r.rangeStart.Some? ==> exists i :: 0 <= i < |w| && w[i].date == r.rangeStart.value;
    r
  }

  /** Every reported average lies between the smallest and the largest of
      the values it was computed from. */
  lemma AveragesWithinRange(entries: seq<MoodEntry>, m: Metric)
    ensures |entries| > 0 ==>
              MinOf(MoodScores(entries)) <= Summarise(entries).averageMood <= MaxOf(MoodScores(entries))
    ensures Summarise(entries).AverageOf(m).Some? ==>
              MinOf(Readings(entries, m)) <= Summarise(entries).AverageOf(m).value <= MaxOf(Readings(entries, m))
  {
    if |entries| > 0 {
      MeanBounds(MoodScores(entries));
    }
    if |Readings(entries, m)| > 0 {
      MeanBounds(Readings(entries, m));
    }
  }

  /** Entry `e` with scale `m` cleared. */
  function Clear(e: MoodEntry, m: Metric): (r: MoodEntry)
    ensures r.Reading(m).None?
    ensures forall g :: g != m ==> r.Reading(g) == e.Reading(g)
    ensures r.moodScore == e.moodScore && r.date == e.date
  {
    match m
    case Energy => e.(energyLevel := None)
    case Stress => e.(stressLevel := None)
    case Anxiety => e.(anxietyLevel := None)
    case Rumination => e.(ruminationLevel := None)
    case Anger => e.(angerLevel := None)
    case GeneralHealth => e.(generalHealth := None)
    case SleepQuality => e.(sleepQuality := None)
    case Sweating => e.(sweatingLevel := None)
    case Libido => e.(libidoLevel := None)
  }

  /** Scales are averaged independently: an entry that lacks scale `m` still
      contributes to the mood average and to every other scale, so clearing
      `m` in one entry changes no other average's inputs. */
  lemma {:induction false} MissingReadingIsolated(entries: seq<MoodEntry>, i: nat, m: Metric)
    requires i < |entries|
    ensures MoodScores(entries[i := Clear(entries[i], m)]) == MoodScores(entries)
    ensures forall g :: g != m ==> Readings(entries[i := Clear(entries[i], m)], g) == Readings(entries, g)
  {
    var cleared := entries[i := Clear(entries[i], m)];
    forall g | g != m ensures Readings(cleared, g) == Readings(entries, g) {
      ReadingsAgree(entries, cleared, g);
    }
  }

  /** Readings of `g` depend only on the entries' `g` values. */
  lemma {:induction false} ReadingsAgree(a: seq<MoodEntry>, b: seq<MoodEntry>, g: Metric)
    requires |a| == |b|
    requires forall k :: 0 <= k < |a| ==> a[k].Reading(g) == b[k].Reading(g)
    ensures Readings(a, g) == Readings(b, g)
  {
    if |a| > 0 {
      ReadingsAgree(a[1..], b[1..], g);
    }
  }

  function NewestFirst(e: MoodEntry): int { -e.date }

  /** The entries inside the optional date window, newest date first. */
  function NewestWindow(entries: seq<MoodEntry>, start: Option<Day>, end: Option<Day>): (s: seq<MoodEntry>)
    ensures multiset(s) == multiset(Window(entries, start, end))
    ensures |s| == Count(entries, (e: MoodEntry) => InWindow(e, start, end))
    ensures forall e :: e in s <==> e in entries && InWindow(e, start, end)
    ensures forall i, j :: 0 <= i < j < |s| ==> s[i].date >= s[j].date
  {
    var w := Window(entries, start, end);
    var sorted := SortBy(w, NewestFirst);
    forall e ensures e in sorted <==> e in entries && InWindow(e, start, end) {
      assert e in sorted <==> e in multiset(sorted);
      assert e in w <==> e in multiset(w);
    }
    forall i, j | 0 <= i < j < |sorted| ensures sorted[i].date >= sorted[j].date {
      assert NewestFirst(sorted[i]) <= NewestFirst(sorted[j]);
    }
    sorted
  }

  /** `get_mood_entries`: the entries inside the optional date window, newest
      date first, at most `limit` of them. A negative limit imposes no bound
      (SQLite's reading of `LIMIT -n`). */
  function GetMoodEntries(entries: seq<MoodEntry>, start: Option<Day>, end: Option<Day>, limit: int): (r: seq<MoodEntry>)
    ensures forall e :: e in r ==> e in entries && InWindow(e, start, end)
    ensures forall i, j :: 0 <= i < j < |r| ==> r[i].date >= r[j].date
    ensures limit >= 0 ==> |r| <= limit
    ensures |r| == if 0 <= limit < Count(entries, (e: MoodEntry) => InWindow(e, start, end)) then limit
                   else Count(entries, (e: MoodEntry) => InWindow(e, start, end))
    ensures multiset(r) <= multiset(Window(entries, start, end))
    ensures !(0 <= limit < Count(entries, (e: MoodEntry) => InWindow(e, start, end))) ==>
              multiset(r) == multiset(Window(entries, start, end))
  {
    var s := NewestWindow(entries, start, end);
    if 0 <= limit < |s| then
      PrefixSubMultiset(s, limit);
      s[..limit]
    else s
  }

  /** The limit keeps the newest entries: an entry of the window is either
      returned or no newer than any entry returned. */
  lemma GetMoodEntriesKeepsNewest(entries: seq<MoodEntry>, start: Option<Day>, end: Option<Day>, limit: int, e: MoodEntry)
    requires e in entries && InWindow(e, start, end)
    ensures e in GetMoodEntries(entries, start, end, limit)
            || forall x :: x in GetMoodEntries(entries, start, end, limit) ==> e.date <= x.date
  {
    var s := NewestWindow(entries, start, end);
    var r := GetMoodEntries(entries, start, end, limit);
    if e !in r {
      var j :| 0 <= j < |s| && s[j] == e;
      assert r == s[..|r|];
      forall x | x in r ensures e.date <= x.date {
        var i :| 0 <= i < |r| && r[i] == x;
        assert i < j;
      }
    }
  }

  // ---------------------------------------------------------------------
  // Order independence: the summary query returns its rows in no
  // particular order, and the summary does not depend on it.

  lemma {:induction false} SumConcat(xs: seq<real>, ys: seq<real>)
    ensures Sum(xs + ys) == Sum(xs) + Sum(ys)
  {
    if |xs| == 0 {
      assert xs + ys == ys;
    } else {
      assert (xs + ys)[1..] == xs[1..] + ys;
      SumConcat(xs[1..], ys);
    }
  }

  /** Reordering the summands does not change a sum. */
  lemma {:induction false} SumPermutation(xs: seq<real>, ys: seq<real>)
    requires multiset(xs) == multiset(ys)
    ensures Sum(xs) == Sum(ys)
    decreases |xs|
  {
    assert |xs| == |multiset(xs)| == |ys|;
    if |xs| > 0 {
      var k := PermutationSplit(xs, ys);
      var before, after := ys[..k], ys[k + 1..];
      SumPermutation(xs[1..], before + after);
      assert xs == [xs[0]] + xs[1..];
      SumConcat([xs[0]], xs[1..]);
      assert ys == before + ([xs[0]] + after);
      SumConcat(before, [xs[0]] + after);
      SumConcat([xs[0]], after);
      SumConcat(before, after);
    }
  }

  lemma MoodScoresConcat(a: seq<MoodEntry>, b: seq<MoodEntry>)
    ensures MoodScores(a + b) == MoodScores(a) + MoodScores(b)
  {
  }

  lemma {:induction false} ReadingsConcat(a: seq<MoodEntry>, b: seq<MoodEntry>, m: Metric)
    ensures Readings(a + b, m) == Readings(a, m) + Readings(b, m)
  {
    if |a| == 0 {
      assert a + b == b;
    } else {
      assert (a + b)[1..] == a[1..] + b;
      ReadingsConcat(a[1..], b, m);
    }
  }

  /** Reordering the entries reorders the mood scores and nothing more. */
  lemma {:induction false} MoodScoresPermute(a: seq<MoodEntry>, b: seq<MoodEntry>)
    requires multiset(a) == multiset(b)
    ensures multiset(MoodScores(a)) == multiset(MoodScores(b))
    decreases |a|
  {
    assert |a| == |multiset(a)| == |b|;
    if |a| > 0 {
      var k := PermutationSplit(a, b);
      var x, before, after := a[0], b[..k], b[k + 1..];
      MoodScoresPermute(a[1..], before + after);
      assert a == [x] + a[1..];
      MoodScoresConcat([x], a[1..]);
      MoodScoresConcat(before + [x], after);
      MoodScoresConcat(before, [x]);
      MoodScoresConcat(before, after);
    }
  }

  /** Reordering the entries reorders the readings of scale `m` and nothing
      more. */
  lemma {:induction false} ReadingsPermute(a: seq<MoodEntry>, b: seq<MoodEntry>, m: Metric)
    requires multiset(a) == multiset(b)
    ensures multiset(Readings(a, m)) == multiset(Readings(b, m))
    decreases |a|
  {
    assert |a| == |multiset(a)| == |b|;
    if |a| > 0 {
      var k := PermutationSplit(a, b);
      var x, before, after := a[0], b[..k], b[k + 1..];
      ReadingsPermute(a[1..], before + after, m);
      assert a == [x] + a[1..];
      ReadingsConcat([x], a[1..], m);
      ReadingsConcat(before + [x], after, m);
      ReadingsConcat(before, [x], m);
      ReadingsConcat(before, after, m);
    }
  }

  /** The reported average of a scale does not depend on the entry order. */
  lemma MetricAverageOrderFree(a: seq<MoodEntry>, b: seq<MoodEntry>, m: Metric)
    requires multiset(a) == multiset(b)
    ensures MetricAverage(a, m) == MetricAverage(b, m)
  {
    ReadingsPermute(a, b, m);
    SumPermutation(Readings(a, m), Readings(b, m));
    assert |Readings(a, m)| == |multiset(Readings(a, m))| == |Readings(b, m)|;
  }

  /** The earliest date does not depend on the entry order. */
  lemma EarliestDateOrderFree(a: seq<MoodEntry>, b: seq<MoodEntry>)
    requires |a| > 0 && multiset(a) == multiset(b)
    ensures |b| > 0 && EarliestDate(a) == EarliestDate(b) && LatestDate(a) == LatestDate(b)
  {
    assert |a| == |multiset(a)| == |b|;
    forall x | x in a ensures x in b {
      assert x in multiset(b);
    }
    forall x | x in b ensures x in a {
      assert x in multiset(a);
    }
    var i :| 0 <= i < |a| && a[i].date == EarliestDate(a);
    var j :| 0 <= j < |b| && b[j].date == EarliestDate(b);
    assert a[i] in b && b[j] in a;
    var i' :| 0 <= i' < |a| && a[i'].date == LatestDate(a);
    var j' :| 0 <= j' < |b| && b[j'].date == LatestDate(b);
    assert a[i'] in b && b[j'] in a;
  }

  /** The summary depends only on which entries the window holds, not on the
      order the database returns them in. */
  lemma SummaryOrderFree(a: seq<MoodEntry>, b: seq<MoodEntry>)
    requires multiset(a) == multiset(b)
    ensures Summarise(a) == Summarise(b)
  {
    assert |a| == |multiset(a)| == |b|;
    if |a| > 0 {
      MoodScoresPermute(a, b);
      SumPermutation(MoodScores(a), MoodScores(b));
      forall m ensures MetricAverage(a, m) == MetricAverage(b, m) {
        MetricAverageOrderFree(a, b, m);
      }
      EarliestDateOrderFree(a, b);
    }
  }
}
