/** The browser-side store: list transformers over the cached habits,
    habit entries and mood entries. Each operation maps the current list to
    the next one; the surrounding state container is not represented. Dates
    and timestamps are the ISO strings the client receives. */
module ClientStore {

  import opened Common
  import opened Sequences

  datatype Habit = Habit(
    id: int,
    name: string,
    description: Option<string>,
    color: string,
    icon: Option<string>,
    category: string,
    createdAt: string,
    isActive: bool)

  datatype HabitEntry = HabitEntry(
    id: int,
    habitId: int,
    date: string,
    completed: bool,
    notes: Option<string>,
    createdAt: string)

  datatype MoodEntry = MoodEntry(
    id: int,
    date: string,
    time: string,
    moodScore: real,
    energyLevel: Option<real>,
    stressLevel: Option<real>,
    notes: Option<string>,
    tags: Option<string>,
    createdAt: string)

  /** A `Partial<…>` update: `Some(v)` for each property present in the
      update object. */
  datatype HabitPatch = HabitPatch(
    id: Option<int>,
    name: Option<string>,
    description: Option<Option<string>>,
    color: Option<string>,
    icon: Option<Option<string>>,
    category: Option<string>,
    createdAt: Option<string>,
    isActive: Option<bool>)

  datatype HabitEntryPatch = HabitEntryPatch(
    id: Option<int>,
    habitId: Option<int>,
    date: Option<string>,
    completed: Option<bool>,
    notes: Option<Option<string>>,
    createdAt: Option<string>)

  datatype MoodEntryPatch = MoodEntryPatch(
    id: Option<int>,
    date: Option<string>,
    time: Option<string>,
    moodScore: Option<real>,
    energyLevel: Option<Option<real>>,
    stressLevel: Option<Option<real>>,
    notes: Option<Option<string>>,
    tags: Option<Option<string>>,
    createdAt: Option<string>)

  /** The property of the spread `{ ...old, ...update }`: the update's value
      when present, else the old one. */
  function Pick<T>(update: Option<T>, current: T): T
  {
    match update
    case Some(v) => v
    case None => current
  }

  function MergeHabit(h: Habit, p: HabitPatch): Habit
  {
    Habit(Pick(p.id, h.id), Pick(p.name, h.name), Pick(p.description, h.description), Pick(p.color, h.color),
          Pick(p.icon, h.icon), Pick(p.category, h.category), Pick(p.createdAt, h.createdAt), Pick(p.isActive, h.isActive))
  }

  function MergeHabitEntry(e: HabitEntry, p: HabitEntryPatch): HabitEntry
  {
    HabitEntry(Pick(p.id, e.id), Pick(p.habitId, e.habitId), Pick(p.date, e.date), Pick(p.completed, e.completed),
               Pick(p.notes, e.notes), Pick(p.createdAt, e.createdAt))
  }

  function MergeMoodEntry(e: MoodEntry, p: MoodEntryPatch): MoodEntry
  {
    MoodEntry(Pick(p.id, e.id), Pick(p.date, e.date), Pick(p.time, e.time), Pick(p.moodScore, e.moodScore),
              Pick(p.energyLevel, e.energyLevel), Pick(p.stressLevel, e.stressLevel), Pick(p.notes, e.notes),
              Pick(p.tags, e.tags), Pick(p.createdAt, e.createdAt))
  }

  const NoHabitChange := HabitPatch(None, None, None, None, None, None, None, None)

  /** An empty update leaves a habit as it was; applying the same update
      twice is the same as applying it once. */
  lemma MergeHabitLaws(h: Habit, p: HabitPatch)
    ensures MergeHabit(h, NoHabitChange) == h
    ensures MergeHabit(MergeHabit(h, p), p) == MergeHabit(h, p)
  {
  }

  // ---------------------------------------------------------------------
  // Habits

  /** `addHabit`: appends. */
  function AddHabit(habits: seq<Habit>, h: Habit): (r: seq<Habit>)
    ensures |r| == |habits| + 1
    ensures r[..|habits|] == habits && r[|habits|] == h
  {
    habits + [h]
  }

  /** `updateHabit`: merges the update into every habit whose id matches. */
  function UpdateHabit(habits: seq<Habit>, id: int, p: HabitPatch): (r: seq<Habit>)
    ensures |r| == |habits|
    ensures forall i :: 0 <= i < |habits| && habits[i].id != id ==> r[i] == habits[i]
    ensures forall i :: 0 <= i < |habits| && habits[i].id == id ==> r[i] == MergeHabit(habits[i], p)
  {
    seq(|habits|, i requires 0 <= i < |habits| => if habits[i].id == id then MergeHabit(habits[i], p) else habits[i])
  }

  /** Updating with an empty patch changes nothing, and repeating an update
      changes nothing more, even one that rewrites the id. */
  lemma UpdateHabitIdempotent(habits: seq<Habit>, id: int, p: HabitPatch)
    ensures UpdateHabit(habits, id, NoHabitChange) == habits
    ensures UpdateHabit(UpdateHabit(habits, id, p), id, p) == UpdateHabit(habits, id, p)
  {
    var once := UpdateHabit(habits, id, p);
    forall i | 0 <= i < |habits| ensures UpdateHabit(once, id, p)[i] == once[i] {
      MergeHabitLaws(habits[i], p);
    }
    forall i | 0 <= i < |habits| ensures UpdateHabit(habits, id, NoHabitChange)[i] == habits[i] {
      MergeHabitLaws(habits[i], p);
    }
  }

  function HabitIdIsNot(id: int): Habit -> bool
  {
    (h: Habit) => h.id != id
  }

  /** `removeHabit`: drops every habit with the id, keeps the rest. */
  function RemoveHabit(habits: seq<Habit>, id: int): (r: seq<Habit>)
    ensures forall h :: h in r ==> h.id != id
    ensures forall h: Habit :: h.id != id ==> multiset(r)[h] == multiset(habits)[h]
    ensures |r| <= |habits|
  {
    Filter(habits, HabitIdIsNot(id))
  }

  /** The survivors of `removeHabit` keep their relative order. */
  lemma RemoveHabitKeepsOrder(a: seq<Habit>, b: seq<Habit>, id: int)
    ensures RemoveHabit(a + b, id) == RemoveHabit(a, id) + RemoveHabit(b, id)
  {
    FilterConcat(a, b, HabitIdIsNot(id));
  }

  /** Removing the id of a freshly added habit undoes the addition, and
      removes any older habit that carried the same id. */
  lemma RemoveUndoesAddHabit(habits: seq<Habit>, h: Habit)
    ensures RemoveHabit(AddHabit(habits, h), h.id) == RemoveHabit(habits, h.id)
  {
    RemoveHabitKeepsOrder(habits, [h], h.id);
  }

  // ---------------------------------------------------------------------
  // Habit entries

  function EntryKey(e: HabitEntry): (int, string) { (e.habitId, e.date) }

  /** `addHabitEntry`: replaces the first entry for the same habit and date,
      otherwise appends. */
  function AddHabitEntry(entries: seq<HabitEntry>, e: HabitEntry): (r: seq<HabitEntry>)
    ensures e in r
    ensures |r| == |entries| <==> exists i :: 0 <= i < |entries| && EntryKey(entries[i]) == EntryKey(e)
    ensures |r| != |entries| ==> r == entries + [e]
    ensures forall i :: 0 <= i < |entries| && EntryKey(entries[i]) != EntryKey(e) ==> r[i] == entries[i]
    ensures forall i, j :: 0 <= i < j < |entries| && EntryKey(entries[i]) == EntryKey(e) && EntryKey(entries[j]) == EntryKey(e) ==> r[j] == entries[j]
    ensures forall k :: 0 <= k < |entries| && EntryKey(entries[k]) == EntryKey(e) ==>
              (forall i :: 0 <= i < k ==> EntryKey(entries[i]) != EntryKey(e)) ==> r[k] == e
  {
    Upsert(entries, e, EntryKey)
  }

  /** If every (habit, date) pair occurred once before `addHabitEntry`, it
      still does, and the entry for the added pair is the added entry. */
  lemma AddHabitEntryKeepsPairsUnique(entries: seq<HabitEntry>, e: HabitEntry)
    requires UniqueKeys(entries, EntryKey)
    ensures UniqueKeys(AddHabitEntry(entries, e), EntryKey)
    ensures forall x :: x in AddHabitEntry(entries, e) && x.habitId == e.habitId && x.date == e.date ==> x == e
  {
    UpsertKeepsKeysUnique(entries, e, EntryKey);
    var r := AddHabitEntry(entries, e);
    forall x | x in r && x.habitId == e.habitId && x.date == e.date ensures x == e {
      var i :| 0 <= i < |r| && r[i] == x;
      assert EntryKey(r[i]) == EntryKey(e);
    }
  }

  /** Adding the same entry twice is the same as adding it once. */
  lemma AddHabitEntryIdempotent(entries: seq<HabitEntry>, e: HabitEntry)
    ensures AddHabitEntry(AddHabitEntry(entries, e), e) == AddHabitEntry(entries, e)
  {
    UpsertIdempotent(entries, e, EntryKey);
  }

  /** The first entry for the pair is the one replaced, even when the added
      entry already sits at a later duplicate. */
  lemma AddHabitEntryReplacesFirstMatch(x: HabitEntry, e: HabitEntry)
    requires x.habitId == e.habitId && x.date == e.date
    ensures AddHabitEntry([x, e], e) == [e, e]
  {
    assert EntryKey([x, e][0]) == EntryKey(e);
  }

  /** `updateHabitEntry`: merges the update into every entry whose id
      matches. */
  function UpdateHabitEntry(entries: seq<HabitEntry>, id: int, p: HabitEntryPatch): (r: seq<HabitEntry>)
    ensures |r| == |entries|
    ensures forall i :: 0 <= i < |entries| && entries[i].id != id ==> r[i] == entries[i]
    ensures forall i :: 0 <= i < |entries| && entries[i].id == id ==> r[i] == MergeHabitEntry(entries[i], p)
  {
    seq(|entries|, i requires 0 <= i < |entries| => if entries[i].id == id then MergeHabitEntry(entries[i], p) else entries[i])
  }

  const NoEntryChange := HabitEntryPatch(None, None, None, None, None, None)

  /** Repeating an entry update changes nothing more; an empty update
      changes nothing. */
  lemma UpdateHabitEntryIdempotent(entries: seq<HabitEntry>, id: int, p: HabitEntryPatch)
    ensures UpdateHabitEntry(entries, id, NoEntryChange) == entries
    ensures UpdateHabitEntry(UpdateHabitEntry(entries, id, p), id, p) == UpdateHabitEntry(entries, id, p)
  {
    var once := UpdateHabitEntry(entries, id, p);
    forall i | 0 <= i < |entries| ensures UpdateHabitEntry(once, id, p)[i] == once[i] {
      assert MergeHabitEntry(MergeHabitEntry(entries[i], p), p) == MergeHabitEntry(entries[i], p);
    }
    forall i | 0 <= i < |entries| ensures UpdateHabitEntry(entries, id, NoEntryChange)[i] == entries[i] {
      assert MergeHabitEntry(entries[i], NoEntryChange) == entries[i];
    }
  }

  // ---------------------------------------------------------------------
  // Mood entries

  /** `addMoodEntry`: appends. */
  function AddMoodEntry(entries: seq<MoodEntry>, e: MoodEntry): (r: seq<MoodEntry>)
    ensures |r| == |entries| + 1
    ensures r[..|entries|] == entries && r[|entries|] == e
  {
    entries + [e]
  }

  /** `updateMoodEntry`: merges the update into every entry whose id
      matches. */
  function UpdateMoodEntry(entries: seq<MoodEntry>, id: int, p: MoodEntryPatch): (r: seq<MoodEntry>)
    ensures |r| == |entries|
    ensures forall i :: 0 <= i < |entries| && entries[i].id != id ==> r[i] == entries[i]
    ensures forall i :: 0 <= i < |entries| && entries[i].id == id ==> r[i] == MergeMoodEntry(entries[i], p)
  {
    seq(|entries|, i requires 0 <= i < |entries| => if entries[i].id == id then MergeMoodEntry(entries[i], p) else entries[i])
  }

  function MoodIdIsNot(id: int): MoodEntry -> bool
  {
    (e: MoodEntry) => e.id != id
  }

  /** `removeMoodEntry`: drops every entry with the id, keeps the rest. */
  function RemoveMoodEntry(entries: seq<MoodEntry>, id: int): (r: seq<MoodEntry>)
    ensures forall e :: e in r ==> e.id != id
    ensures forall e: MoodEntry :: e.id != id ==> multiset(r)[e] == multiset(entries)[e]
    ensures |r| <= |entries|
  {
    Filter(entries, MoodIdIsNot(id))
  }

  /** The survivors of `removeMoodEntry` keep their relative order. */
  lemma RemoveMoodEntryKeepsOrder(a: seq<MoodEntry>, b: seq<MoodEntry>, id: int)
    ensures RemoveMoodEntry(a + b, id) == RemoveMoodEntry(a, id) + RemoveMoodEntry(b, id)
  {
    FilterConcat(a, b, MoodIdIsNot(id));
  }

  /** Removing the id of a freshly added mood entry undoes the addition. */
  lemma RemoveUndoesAddMoodEntry(entries: seq<MoodEntry>, e: MoodEntry)
    ensures RemoveMoodEntry(AddMoodEntry(entries, e), e.id) == RemoveMoodEntry(entries, e.id)
  {
    RemoveMoodEntryKeepsOrder(entries, [e], e.id);
  }

  const NoMoodChange := MoodEntryPatch(None, None, None, None, None, None, None, None, None)

  /** Repeating a mood-entry update changes nothing more; an empty update
      changes nothing. */
  lemma UpdateMoodEntryIdempotent(entries: seq<MoodEntry>, id: int, p: MoodEntryPatch)
    ensures UpdateMoodEntry(entries, id, NoMoodChange) == entries
    ensures UpdateMoodEntry(UpdateMoodEntry(entries, id, p), id, p) == UpdateMoodEntry(entries, id, p)
  {
    var once := UpdateMoodEntry(entries, id, p);
    forall i | 0 <= i < |entries| ensures UpdateMoodEntry(once, id, p)[i] == once[i] {
      assert MergeMoodEntry(MergeMoodEntry(entries[i], p), p) == MergeMoodEntry(entries[i], p);
    }
    forall i | 0 <= i < |entries| ensures UpdateMoodEntry(entries, id, NoMoodChange)[i] == entries[i] {
      assert MergeMoodEntry(entries[i], NoMoodChange) == entries[i];
    }
  }
}
