/** The batch job that pads every active factor's history with explicit
    "not completed" entries. It predates the rename of habits to lifestyle
    factors, so its habit and habit-entry tables are the factor and entry
    tables of `LifestyleFactors`. The database session becomes the entry
    table passed in and returned; new rows are appended in the order the
    job adds them, and the interactive confirmation is a parameter. */
module Backfill {

  import opened Common
  import opened Sequences
  import opened LifestyleFactors

  /** The first day to pad: the earliest date of any entry of any factor,
      or today when there are no entries at all. */
  function GlobalStart(entries: seq<FactorEntry>, today: Day): (start: Day)
    ensures |entries| == 0 ==> start == today
    ensures |entries| > 0 ==> exists i :: 0 <= i < |entries| && entries[i].date == start
    ensures forall i :: 0 <= i < |entries| ==> start <= entries[i].date
  {
    if |entries| == 0 then today else MinBy(entries, EntryDate)
  }

  /** Dates on which factor `id` already has an entry. */
  function DatesOf(entries: seq<FactorEntry>, id: int): set<Day>
  {
    set e | e in entries && e.factorId == id :: e.date
  }

  ghost predicate HasEntry(entries: seq<FactorEntry>, id: int, d: Day)
  {
    exists e :: e in entries && e.factorId == id && e.date == d
  }

  /** The entry the job writes for a missing day. */
  function Padding(id: int, d: Day): FactorEntry
  {
    FactorEntry(id, d, false, None)
  }

  /** Number of days in `[lo, hi]` that are not in `existing`. */
  function MissingCount(existing: set<Day>, lo: Day, hi: Day): nat
    decreases hi - lo
  {
    if hi < lo then 0
    else MissingCount(existing, lo, hi - 1) + (if hi in existing then 0 else 1)
  }

  /** `added` pads factor `id` on exactly the days of `[start, upto)` that
      are not in `existing`, in ascending order. */
  ghost predicate PadsUpTo(added: seq<FactorEntry>, id: int, existing: set<Day>, start: Day, upto: Day)
  {
    && (forall k :: 0 <= k < |added| ==> added[k] == Padding(id, added[k].date))
    && (forall k :: 0 <= k < |added| ==> start <= added[k].date < upto && added[k].date !in existing)
    && (forall k, l :: 0 <= k < l < |added| ==> added[k].date < added[l].date)
    && (forall d :: start <= d < upto && d !in existing ==> exists k :: 0 <= k < |added| && added[k].date == d)
  }

  /** One day of the inner loop. */
  lemma PadDay(added: seq<FactorEntry>, id: int, existing: set<Day>, start: Day, current: Day)
    requires start <= current
    requires PadsUpTo(added, id, existing, start, current)
    ensures current !in existing ==> PadsUpTo(added + [Padding(id, current)], id, existing, start, current + 1)
    ensures current in existing ==> PadsUpTo(added, id, existing, start, current + 1)
  {
    var next := if current in existing then added else added + [Padding(id, current)];
    forall d | start <= d < current + 1 && d !in existing
      ensures exists k :: 0 <= k < |next| && next[k].date == d
    {
      if d < current {
        var k :| 0 <= k < |added| && added[k].date == d;
        assert next[k] == added[k];
      } else {
        assert next[|next| - 1].date == d;
      }
    }
  }

  /** The inner loop of the job for one factor: walks the days from `start`
      to `today` and pads each day not in `existing`. */
  method PadFactor(id: int, existing: set<Day>, start: Day, today: Day) returns (added: seq<FactorEntry>)
    ensures PadsUpTo(added, id, existing, start, today + 1)
    ensures |added| == MissingCount(existing, start, today)
  {
    added := [];
    if today < start {
      return;
    }
    var current := start;
    while current <= today
      invariant start <= current <= today + 1
      invariant PadsUpTo(added, id, existing, start, current)
      invariant |added| == MissingCount(existing, start, current - 1)
      decreases today - current
    {
      PadDay(added, id, existing, start, current);
      assert MissingCount(existing, start, current) == |added| + (if current in existing then 0 else 1);
      if current !in existing {
        added := added + [Padding(id, current)];
      }
      current := current + 1;
    }
  }

  /** Number of entries the job adds for the active factors among `fs`. */
  function TotalMissing(fs: seq<Factor>, entries: seq<FactorEntry>, start: Day, today: Day): nat
  {
    if |fs| == 0 then 0
    else
      var last := fs[|fs| - 1];
      TotalMissing(fs[..|fs| - 1], entries, start, today)
        + (if last.isActive then MissingCount(DatesOf(entries, last.id), start, today) else 0)
  }

  ghost predicate IsActiveId(factors: seq<Factor>, id: int)
  {
    exists f :: f in factors && f.isActive && f.id == id
  }

  lemma {:induction false} NothingActiveNothingMissing(fs: seq<Factor>, entries: seq<FactorEntry>, start: Day, today: Day)
    requires forall f :: f in fs ==> !f.isActive
    ensures TotalMissing(fs, entries, start, today) == 0
  {
    if |fs| > 0 {
      assert fs[|fs| - 1] in fs;
      NothingActiveNothingMissing(fs[..|fs| - 1], entries, start, today);
    }
  }

  /** A row the job added while processing `factors[..i]`: a padding row for
      an active factor among them, on a day of the range that factor had no
      entry for. */
  ghost predicate PadRow(r: FactorEntry, factors: seq<Factor>, i: int, entries: seq<FactorEntry>, start: Day, today: Day)
    requires 0 <= i <= |factors|
  {
    && r == Padding(r.factorId, r.date)
    && (exists j :: 0 <= j < i && factors[j].isActive && factors[j].id == r.factorId)
    && start <= r.date <= today
    && r.date !in DatesOf(entries, r.factorId)
  }

  /** The state of the job after processing `factors[..i]`. */
  ghost predicate Progress(factors: seq<Factor>, i: int, entries: seq<FactorEntry>, result: seq<FactorEntry>, start: Day, today: Day)
    requires 0 <= i <= |factors|
  {
    && |entries| <= |result|
    && result[..|entries|] == entries
    && (forall k :: |entries| <= k < |result| ==> PadRow(result[k], factors, i, entries, start, today))
    && (forall j, d :: 0 <= j < i && factors[j].isActive && start <= d <= today ==> HasEntry(result, factors[j].id, d))
    && (UniqueIds(factors) ==> forall k, l :: |entries| <= k < l < |result| ==> EntryKey(result[k]) != EntryKey(result[l]))
  }

  /** Appending the padding of `factors[i]` advances the job's state. */
  lemma PadStep(factors: seq<Factor>, i: int, entries: seq<FactorEntry>, result: seq<FactorEntry>,
                pads: seq<FactorEntry>, start: Day, today: Day)
    requires 0 <= i < |factors| && factors[i].isActive
    requires Progress(factors, i, entries, result, start, today)
    requires PadsUpTo(pads, factors[i].id, DatesOf(entries, factors[i].id), start, today + 1)
    ensures Progress(factors, i + 1, entries, result + pads, start, today)
  {
    var next := result + pads;
    assert next[..|entries|] == entries by {
      assert next[..|result|] == result;
    }
    forall k | |entries| <= k < |next| ensures PadRow(next[k], factors, i + 1, entries, start, today) {
      if k < |result| {
        assert next[k] == result[k];
        assert PadRow(result[k], factors, i, entries, start, today);
      } else {
        assert next[k] == pads[k - |result|];
      }
    }
    forall j, d | 0 <= j < i + 1 && factors[j].isActive && start <= d <= today
      ensures HasEntry(next, factors[j].id, d)
    {
      if j < i {
        assert HasEntry(result, factors[j].id, d);
        var e :| e in result && e.factorId == factors[j].id && e.date == d;
        assert e in next;
      } else if d in DatesOf(entries, factors[i].id) {
        var e :| e in entries && e.factorId == factors[i].id && e.date == d;
        assert e in result[..|entries|];
        assert e in next;
      } else {
        var k :| 0 <= k < |pads| && pads[k].date == d;
        assert next[|result| + k] == pads[k];
      }
    }
    if UniqueIds(factors) {
      forall k, l | |entries| <= k < l < |next| ensures EntryKey(next[k]) != EntryKey(next[l]) {
        if l >= |result| {
          assert next[l] == pads[l - |result|];
          if k < |result| {
            assert next[k] == result[k];
            assert PadRow(result[k], factors, i, entries, start, today);
            var j :| 0 <= j < i && factors[j].isActive && factors[j].id == result[k].factorId;
          } else {
            assert next[k] == pads[k - |result|];
          }
        } else {
          assert next[k] == result[k] && next[l] == result[l];
        }
      }
    }
  }

  /** What one run of the job guarantees about the table `result` it leaves
      and the count `added` it reports, given the table `entries` it found. */
  ghost predicate JobResult(factors: seq<Factor>, entries: seq<FactorEntry>, today: Day, confirmed: bool,
                            result: seq<FactorEntry>, added: int)
  {
    && (|entries| <= |result| && result[..|entries|] == entries)
    && (added == |result| - |entries|)
    && (forall k :: |entries| <= k < |result| ==>
         result[k] == Padding(result[k].factorId, result[k].date)
         && IsActiveId(factors, result[k].factorId)
         && GlobalStart(entries, today) <= result[k].date <= today
         && !HasEntry(entries, result[k].factorId, result[k].date))
    && ((!confirmed || forall f :: f in factors ==> !f.isActive) ==> added == 0)
    && (confirmed ==>
         forall f, d :: f in factors && f.isActive && GlobalStart(entries, today) <= d <= today ==> HasEntry(result, f.id, d))
    && (UniqueIds(factors) ==> forall k, l :: |entries| <= k < l < |result| ==> EntryKey(result[k]) != EntryKey(result[l]))
    && (confirmed ==> added == TotalMissing(factors, entries, GlobalStart(entries, today), today))
  }

  /** `backfill_habit_entries`: returns the entry table after the job and the
      number of entries it added. */
  method BackfillEntries(factors: seq<Factor>, entries: seq<FactorEntry>, today: Day, confirmed: bool)
    returns (result: seq<FactorEntry>, added: nat)
    ensures JobResult(factors, entries, today, confirmed, result, added)
  {
    result, added := entries, 0;
    if (forall f :: f in factors ==> !f.isActive) || !confirmed {
      if confirmed {
        NothingActiveNothingMissing(factors, entries, GlobalStart(entries, today), today);
      }
      return;
    }
    var start := GlobalStart(entries, today);
    var i := 0;
    while i < |factors|
      invariant 0 <= i <= |factors|
      invariant Progress(factors, i, entries, result, start, today)
      invariant added == |result| - |entries|
      invariant added == TotalMissing(factors[..i], entries, start, today)
    {
      var f := factors[i];
      assert factors[..i + 1][..i] == factors[..i];
      if f.isActive {
        var pads := PadFactor(f.id, DatesOf(entries, f.id), start, today);
        PadStep(factors, i, entries, result, pads, start, today);
        result := result + pads;
        added := added + |pads|;
      }
      i := i + 1;
    }
    assert factors[..i] == factors;
    forall k | |entries| <= k < |result|
      ensures IsActiveId(factors, result[k].factorId) && !HasEntry(entries, result[k].factorId, result[k].date)
    {
      assert PadRow(result[k], factors, i, entries, start, today);
      var j :| 0 <= j < i && factors[j].isActive && factors[j].id == result[k].factorId;
      assert factors[j] in factors;
    }
    forall f, d | f in factors && f.isActive && start <= d <= today ensures HasEntry(result, f.id, d) {
      var j :| 0 <= j < |factors| && factors[j] == f;
    }
  }

  /** Rows dated inside `[GlobalStart(entries, today), today]` do not move
      the start of the range. */
  lemma GlobalStartStable(entries: seq<FactorEntry>, more: seq<FactorEntry>, today: Day)
    requires forall k :: 0 <= k < |more| ==> GlobalStart(entries, today) <= more[k].date <= today
    ensures GlobalStart(entries + more, today) == GlobalStart(entries, today)
  {
    var all := entries + more;
    var s := GlobalStart(entries, today);
    if |all| > 0 {
      var g := GlobalStart(all, today);
      var i :| 0 <= i < |all| && all[i].date == g;
      if |entries| > 0 {
        var j :| 0 <= j < |entries| && entries[j].date == s;
        assert all[j] == entries[j];
        if i < |entries| {
          assert all[i] == entries[i];
        } else {
          assert all[i] == more[i - |entries|];
        }
      } else {
        assert all[i] == more[i];
        assert more[0] == all[0];
      }
    }
  }

  lemma {:induction false} NoDayMissing(existing: set<Day>, lo: Day, hi: Day)
    requires forall d :: lo <= d <= hi ==> d in existing
    ensures MissingCount(existing, lo, hi) == 0
    decreases hi - lo
  {
    if lo <= hi {
      NoDayMissing(existing, lo, hi - 1);
    }
  }

  /** A table in which every active factor already has an entry on every
      day of the range leaves the job nothing to add. */
  lemma {:induction false} CoveredTableNeedsNoPadding(fs: seq<Factor>, entries: seq<FactorEntry>, start: Day, today: Day)
    requires forall f, d :: f in fs && f.isActive && start <= d <= today ==> HasEntry(entries, f.id, d)
    ensures TotalMissing(fs, entries, start, today) == 0
  {
    if |fs| > 0 {
      var last := fs[|fs| - 1];
      assert last in fs;
      CoveredTableNeedsNoPadding(fs[..|fs| - 1], entries, start, today);
      if last.isActive {
        forall d | start <= d <= today ensures d in DatesOf(entries, last.id) {
          assert HasEntry(entries, last.id, d);
          var e :| e in entries && e.factorId == last.id && e.date == d;
        }
        NoDayMissing(DatesOf(entries, last.id), start, today);
      }
    }
  }

  /** Running the job a second time on the table the first run left, with the
      same "today", adds nothing and leaves that table as it is. */
  lemma RerunAddsNothing(factors: seq<Factor>, entries: seq<FactorEntry>, today: Day,
                         first: seq<FactorEntry>, added: int, second: seq<FactorEntry>, addedAgain: int)
    requires JobResult(factors, entries, today, true, first, added)
    requires JobResult(factors, first, today, true, second, addedAgain)
    ensures addedAgain == 0
    ensures second == first
  {
    GlobalStartStable(entries, first[|entries|..], today);
    assert entries + first[|entries|..] == first;
    CoveredTableNeedsNoPadding(factors, first, GlobalStart(first, today), today);
    assert second == second[..|first|];
  }
}
