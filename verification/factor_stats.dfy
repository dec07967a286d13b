/** `get_lifestyle_factor_stats`: counts, completion rate and the two streaks
    of one factor, computed over the entries stored for it. "Today" is a
    parameter and the completion rate is an exact ratio (no rounding). */
module FactorStats {

  import opened Common
  import opened Sequences
  import opened LifestyleFactors

  datatype Stats = Stats(
    factorId: int,
    factorName: string,
    totalDays: nat,
    completedDays: nat,
    completionRate: real,
    currentStreak: nat,
    longestStreak: nat)

  function ByDate(e: FactorEntry): int { e.date }

  function IsCompleted(e: FactorEntry): bool { e.completed }

  /** The factor's entries in ascending date order, equal dates in stored
      order. */
  function Chronological(entries: seq<FactorEntry>): seq<FactorEntry>
  {
    SortBy(entries, ByDate)
  }

  /** Percentage of completed days; 0 for an empty history. */
  function CompletionRate(completed: nat, total: nat): (rate: real)
    ensures total == 0 ==> rate == 0.0
    ensures total > 0 ==> rate * total as real == completed as real * 100.0
    ensures completed <= total ==> 0.0 <= rate <= 100.0
  {
    if total > 0 then
      var q := completed as real / total as real;
      assert q * total as real == completed as real;
      assert q * 100.0 * total as real == q * total as real * 100.0;
      assert completed <= total ==> q <= 1.0;
      q * 100.0
    else 0.0
  }

  /** For a fixed number of days, more completed days never lower the
      rate. */
  lemma CompletionRateMonotonic(c1: nat, c2: nat, total: nat)
    requires c1 <= c2
    ensures CompletionRate(c1, total) <= CompletionRate(c2, total)
  {
    if total > 0 {
      assert c1 as real / total as real <= c2 as real / total as real;
    }
  }

  /** Entries `s[a..b]` are all completed: a run of completed days. */
  ghost predicate AllCompleted(s: seq<FactorEntry>, a: int, b: int)
    requires 0 <= a <= b <= |s|
  {
    forall k :: a <= k < b ==> s[k].completed
  }

  /** `n` is the length of the longest run of consecutive completed entries
      in `s`. */
  ghost predicate IsLongestRun(s: seq<FactorEntry>, n: nat)
  {
    && (exists a, b :: 0 <= a <= b <= |s| && b - a == n && AllCompleted(s, a, b))
    && (forall a, b :: 0 <= a <= b <= |s| && AllCompleted(s, a, b) ==> b - a <= n)
  }

  /** Whether the backwards scan counts `e`: completed and at most `window`
      days before today. */
  predicate Counted(e: FactorEntry, today: Day, window: nat)
  {
    e.completed && today - e.date <= window
  }

  /** Number of leading entries dated today or earlier; in a chronological
      sequence these are exactly the entries that are not in the future. */
  function PastEnd(s: seq<FactorEntry>, today: Day): (p: nat)
    ensures p <= |s|
    ensures forall k :: 0 <= k < p ==> s[k].date <= today
    ensures p < |s| ==> s[p].date > today
  {
    match FindFirst(s, (e: FactorEntry) => e.date > today)
    case None => |s|
    case Some(k) => k
  }

  /** `n` is the current streak of `s`: the non-future entries `s[..p]` end
      with exactly `n` counted entries. */
  ghost predicate IsCurrentRun(s: seq<FactorEntry>, today: Day, window: nat, n: nat)
  {
    var p := PastEnd(s, today);
    && n <= p
    && (forall k :: p - n <= k < p ==> Counted(s[k], today, window))
    && (n == p || !Counted(s[p - n - 1], today, window))
  }

  /** A run of completed entries is no longer than the number of completed
      entries. */
  lemma RunWithinCompleted(s: seq<FactorEntry>, a: nat, b: nat)
    requires a <= b <= |s|
    requires AllCompleted(s, a, b)
    ensures b - a <= Count(s, IsCompleted)
  {
    var head, run, tail := s[..a], s[a..b], s[b..];
    assert s == head + run + tail;
    assert forall k :: 0 <= k < |run| ==> IsCompleted(run[k]) by {
      forall k | 0 <= k < |run| ensures IsCompleted(run[k]) {
        assert run[k] == s[a + k];
      }
    }
    CountAll(run, IsCompleted);
    CountConcat(head, run, IsCompleted);
    CountConcat(head + run, tail, IsCompleted);
  }

  /** One step of the longest-run scan: if no run inside `s[..i]` beats
      `longest` and the run ending at `i + 1` is the maximal one of length
      `temp <= longest`, then no run inside `s[..i + 1]` beats `longest`. */
  lemma RunsBoundedAfterStep(s: seq<FactorEntry>, i: nat, temp: nat, longest: nat)
    requires i < |s|
    requires temp <= i + 1 && AllCompleted(s, i + 1 - temp, i + 1)
    requires temp < i + 1 ==> !s[i - temp].completed
    requires temp <= longest
    requires forall a, b :: 0 <= a <= b <= i && AllCompleted(s, a, b) ==> b - a <= longest
    ensures forall a, b :: 0 <= a <= b <= i + 1 && AllCompleted(s, a, b) ==> b - a <= longest
  {
    forall a, b | 0 <= a <= b <= i + 1 && AllCompleted(s, a, b) ensures b - a <= longest {
      if b == i + 1 && temp < i + 1 {
        var breaker := s[i - temp];
        assert a <= i - temp ==> breaker.completed;
      }
    }
  }

  /** The ascending scan of the source: a running counter of consecutive
      completed entries, reset by a non-completed one, whose maximum is the
      longest streak. */
  method LongestStreak(s: seq<FactorEntry>) returns (longest: nat)
    ensures IsLongestRun(s, longest)
  {
    longest := 0;
    var temp: nat := 0;
    ghost var runStart, runEnd := 0, 0;
    var i := 0;
    while i < |s|
      invariant 0 <= i <= |s|
      invariant temp <= i && AllCompleted(s, i - temp, i)
      invariant temp < i ==> !s[i - temp - 1].completed
      invariant temp <= longest
      invariant 0 <= runStart <= runEnd <= i && runEnd - runStart == longest && AllCompleted(s, runStart, runEnd)
      invariant forall a, b :: 0 <= a <= b <= i && AllCompleted(s, a, b) ==> b - a <= longest
    {
      if s[i].completed {
        temp := temp + 1;
        if temp > longest {
          longest := temp;
          runStart, runEnd := i + 1 - temp, i + 1;
        }
      } else {
        temp := 0;
      }
      RunsBoundedAfterStep(s, i, temp, longest);
      i := i + 1;
    }
  }

  /** The descending scan of the source: future-dated entries are skipped,
      then completed entries at most `window` days old are counted until the
      first one that is not. */
  method CurrentStreak(s: seq<FactorEntry>, today: Day, window: nat) returns (current: nat)
    requires SortedBy(s, ByDate)
    ensures IsCurrentRun(s, today, window, current)
  {
    var p := PastEnd(s, today);
    assert forall k :: p <= k < |s| ==> s[k].date > today by {
      forall k | p <= k < |s| ensures s[k].date > today {
        assert ByDate(s[p]) <= ByDate(s[k]);
      }
    }
    current := 0;
    var j := |s|;
    while j > 0
      invariant 0 <= j <= |s|
      invariant j >= p ==> current == 0
      invariant j < p ==> current == p - j
      invariant forall k :: j <= k < p ==> Counted(s[k], today, window)
    {
      var e := s[j - 1];
      if e.date > today {
        j := j - 1;
        continue;
      }
      if e.completed && today - e.date <= window {
        current := current + 1;
        j := j - 1;
      } else {
        break;
      }
    }
  }

  /** The longest streak is bounded by the completed count and is zero
      exactly when nothing was completed. */
  lemma LongestWithinCompleted(s: seq<FactorEntry>, longest: nat)
    requires IsLongestRun(s, longest)
    ensures longest <= Count(s, IsCompleted)
    ensures longest == 0 <==> Count(s, IsCompleted) == 0
  {
    var a, b :| 0 <= a <= b <= |s| && b - a == longest && AllCompleted(s, a, b);
    RunWithinCompleted(s, a, b);
    if Count(s, IsCompleted) > 0 {
      CountZero(s, IsCompleted);
      var k :| 0 <= k < |s| && s[k].completed;
      assert AllCompleted(s, k, k + 1);
    }
  }

  /** The entries the current streak counts form a run of completed entries,
      so the current streak never exceeds the longest one. */
  lemma CurrentWithinLongest(s: seq<FactorEntry>, today: Day, window: nat, current: nat, longest: nat)
    requires IsCurrentRun(s, today, window, current)
    requires IsLongestRun(s, longest)
    ensures current <= longest
  {
    var p := PastEnd(s, today);
    assert AllCompleted(s, p - current, p);
  }

  /** The statistics of one factor from its stored entries (in any order). */
  method ComputeStats(factor: Factor, entries: seq<FactorEntry>, today: Day) returns (st: Stats)
    ensures st.factorId == factor.id && st.factorName == factor.name
    ensures st.totalDays == |entries|
    ensures st.completedDays == Count(entries, IsCompleted)
    ensures st.completedDays <= st.totalDays
    ensures st.completionRate == CompletionRate(st.completedDays, st.totalDays)
    ensures 0.0 <= st.completionRate <= 100.0
    ensures |entries| == 0 ==> st.completionRate == 0.0 && st.currentStreak == 0 && st.longestStreak == 0
    ensures IsLongestRun(Chronological(entries), st.longestStreak)
    ensures st.longestStreak <= st.completedDays
    ensures st.longestStreak == 0 <==> st.completedDays == 0
    ensures IsCurrentRun(Chronological(entries), today, |entries|, st.currentStreak)
    ensures st.currentStreak <= st.longestStreak
  {
    var s := Chronological(entries);
    if |entries| == 0 {
      st := Stats(factor.id, factor.name, 0, 0, 0.0, 0, 0);
      assert AllCompleted(s, 0, 0);
      return;
    }
    var total := |entries|;
    var completed := Count(entries, IsCompleted);
    var rate := CompletionRate(completed, total);

    var longest := LongestStreak(s);
    var current := CurrentStreak(s, today, total);
    CountPermutation(s, entries, IsCompleted);
    LongestWithinCompleted(s, longest);
    CurrentWithinLongest(s, today, total, current, longest);
    st := Stats(factor.id, factor.name, total, completed, rate, current, longest);
  }

  /** The entries of factor `id`, in table order. */
  function EntriesOf(entries: seq<FactorEntry>, id: int): seq<FactorEntry>
  {
    Filter(entries, (e: FactorEntry) => e.factorId == id)
  }

  /** The stats endpoint: NotFound for an unknown factor, otherwise the
      statistics of exactly the entries that refer to it. */
  method GetStats(db: Tables, factorId: int, today: Day) returns (r: Result<Stats>)
    ensures r.Err? <==> !HasFactor(db.factors, factorId)
    ensures r.Ok? ==> r.value.factorId == factorId
    ensures r.Ok? ==> exists k :: 0 <= k < |db.factors| && db.factors[k].id == factorId && r.value.factorName == db.factors[k].name
    ensures r.Ok? ==> r.value.totalDays == |EntriesOf(db.entries, factorId)|
    ensures r.Ok? ==> r.value.completedDays == Count(EntriesOf(db.entries, factorId), IsCompleted)
    ensures r.Ok? ==> r.value.completionRate == CompletionRate(r.value.completedDays, r.value.totalDays)
    ensures r.Ok? ==> IsLongestRun(Chronological(EntriesOf(db.entries, factorId)), r.value.longestStreak)
    ensures r.Ok? ==> IsCurrentRun(Chronological(EntriesOf(db.entries, factorId)), today, r.value.totalDays, r.value.currentStreak)
    ensures r.Ok? ==> r.value.currentStreak <= r.value.longestStreak <= r.value.completedDays
  {
    match FindFirst(db.factors, (f: Factor) => f.id == factorId)
    case None =>
      r := Err(NotFound);
    case Some(k) =>
      var st := ComputeStats(db.factors[k], EntriesOf(db.entries, factorId), today);
      r := Ok(st);
  }
}
