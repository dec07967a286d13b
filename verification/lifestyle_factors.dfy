/** The lifestyle-factor tables and the write endpoints of the lifestyle
    factor router: listing, delete with cascade, archive/unarchive and the
    per-day entry upsert. The database session is replaced by two immutable
    tables; SQL `.first()` over a table becomes the first match in table
    order. */
module LifestyleFactors {

  import opened Common
  import opened Sequences

  /** A tracked binary daily habit. Descriptive columns that no modelled
      operation reads (description, colour, icon) are not represented. */
  datatype Factor = Factor(id: int, name: string, category: string, isActive: bool, createdAt: int)

  /** One day's log for one factor. The table's own id and timestamp are
      not represented: entries are identified by (factorId, date). */
  datatype FactorEntry = FactorEntry(factorId: int, date: Day, completed: bool, notes: Option<string>)

  /** The factor table and the entry table. */
  datatype Tables = Tables(factors: seq<Factor>, entries: seq<FactorEntry>)

  function CreatedAt(f: Factor): int { f.createdAt }

  function EntryKey(e: FactorEntry): (int, Day) { (e.factorId, e.date) }

  function EntryDate(e: FactorEntry): Day { e.date }

  /** The database's primary-key constraint on the factor table. */
  ghost predicate UniqueIds(factors: seq<Factor>)
  {
    forall i, j :: 0 <= i < j < |factors| ==> factors[i].id != factors[j].id
  }

  ghost predicate HasFactor(factors: seq<Factor>, id: int)
  {
    exists i :: 0 <= i < |factors| && factors[i].id == id
  }

  /** Whether a factor is listed for the given `include_inactive` flag. */
  function Listed(includeInactive: bool): Factor -> bool
  {
    (f: Factor) => includeInactive || f.isActive
  }

  /** `get_lifestyle_factors`: the active factors (all factors when
      `includeInactive`), ordered by creation time. */
  function ListFactors(factors: seq<Factor>, includeInactive: bool): (r: seq<Factor>)
    ensures forall f :: f in r ==> includeInactive || f.isActive
    ensures forall f: Factor :: (includeInactive || f.isActive) ==> multiset(r)[f] == multiset(factors)[f]
    ensures forall f :: f in r <==> f in factors && (includeInactive || f.isActive)
    ensures SortedBy(r, CreatedAt)
  {
    var visible := Filter(factors, Listed(includeInactive));
    var r := SortBy(visible, CreatedAt);
    assert forall f :: f in r <==> f in multiset(visible);
    r
  }

  /** `delete_lifestyle_factor`: removes the factor found for `id` and every
      entry that refers to `id`; an unknown id is NotFound. */
  function DeleteFactor(db: Tables, id: int): (r: Result<Tables>)
    ensures r.Err? <==> !HasFactor(db.factors, id)
    ensures r.Ok? ==> |r.value.factors| == |db.factors| - 1
    ensures r.Ok? ==> forall f: Factor :: f.id != id ==> multiset(r.value.factors)[f] == multiset(db.factors)[f]
    ensures r.Ok? && UniqueIds(db.factors) ==> !HasFactor(r.value.factors, id)
    ensures r.Ok? ==> forall e: FactorEntry :: e.factorId == id ==> e !in r.value.entries
    ensures r.Ok? ==> forall e: FactorEntry :: e.factorId != id ==> multiset(r.value.entries)[e] == multiset(db.entries)[e]
  {
    match FindFirst(db.factors, (f: Factor) => f.id == id)
    case None => Err(NotFound)
    case Some(k) =>
      var factors := db.factors[..k] + db.factors[k + 1..];
      assert db.factors == db.factors[..k] + [db.factors[k]] + db.factors[k + 1..];
      assert multiset(db.factors) == multiset(factors) + multiset{db.factors[k]};
      RemovingFoundFactor(db.factors, k);
      Ok(Tables(factors, Filter(db.entries, (e: FactorEntry) => e.factorId != id)))
  }

  /** Under the primary-key constraint, removing the factor at `k` leaves no
      factor with its id. */
  lemma RemovingFoundFactor(factors: seq<Factor>, k: nat)
    requires k < |factors|
    ensures UniqueIds(factors) ==> !HasFactor(factors[..k] + factors[k + 1..], factors[k].id)
  {
    var rest := factors[..k] + factors[k + 1..];
    if UniqueIds(factors) {
      forall i | 0 <= i < |rest| ensures rest[i].id != factors[k].id {
        if i < k {
          assert rest[i] == factors[i];
        } else {
          assert rest[i] == factors[i + 1];
        }
      }
    }
  }

  /** The common step of archive and unarchive: set `isActive` on the factor
      found for `id`, leaving every other column and every other factor as
      it was. */
  function SetActive(factors: seq<Factor>, id: int, active: bool): (r: Result<seq<Factor>>)
    ensures r.Err? <==> !HasFactor(factors, id)
    ensures r.Ok? ==> |r.value| == |factors|
    ensures r.Ok? ==> exists k :: 0 <= k < |factors| && factors[k].id == id
                        && r.value[k] == factors[k].(isActive := active)
                        && forall i :: 0 <= i < |factors| && i != k ==> r.value[i] == factors[i]
  {
    match FindFirst(factors, (f: Factor) => f.id == id)
    case None => Err(NotFound)
    case Some(k) => Ok(factors[k := factors[k].(isActive := active)])
  }

  /** `archive_lifestyle_factor`: under the primary-key constraint, every
      factor carrying the id is inactive afterwards. */
  function Archive(factors: seq<Factor>, id: int): (r: Result<seq<Factor>>)
    ensures r.Err? <==> !HasFactor(factors, id)
    ensures r.Ok? && UniqueIds(factors) ==> forall f :: f in r.value && f.id == id ==> !f.isActive
  {
    SetActive(factors, id, false)
  }

  /** An archived factor drops out of the default listing. */
  lemma ArchiveHidesFactor(factors: seq<Factor>, id: int)
    requires UniqueIds(factors) && HasFactor(factors, id)
    ensures forall f :: f in ListFactors(Archive(factors, id).value, false) ==> f.id != id
  {
  }

  /** `unarchive_lifestyle_factor`. */
  function Unarchive(factors: seq<Factor>, id: int): (r: Result<seq<Factor>>)
    ensures r.Err? <==> !HasFactor(factors, id)
    ensures r.Ok? ==> exists f :: f in ListFactors(r.value, false) && f.id == id
  {
    SetActive(factors, id, true)
  }

  /** `create_lifestyle_factor_entry`: logging a factor for a date updates the
      completed flag and notes of the entry already stored for that
      (factor, date) pair, or stores a new entry. */
  function LogEntry(entries: seq<FactorEntry>, entry: FactorEntry): (r: seq<FactorEntry>)
    ensures |entries| <= |r| <= |entries| + 1
    ensures entry in r
    ensures |r| == |entries| <==> exists i :: 0 <= i < |entries| && EntryKey(entries[i]) == EntryKey(entry)
    ensures forall i :: 0 <= i < |entries| && EntryKey(entries[i]) != EntryKey(entry) ==> r[i] == entries[i]
    ensures forall k :: 0 <= k < |entries| && EntryKey(entries[k]) == EntryKey(entry) ==>
              (forall i :: 0 <= i < k ==> EntryKey(entries[i]) != EntryKey(entry)) ==> r[k] == entry
    ensures forall i, j :: 0 <= i < j < |entries| && EntryKey(entries[i]) == EntryKey(entry) && EntryKey(entries[j]) == EntryKey(entry) ==> r[j] == entries[j]
  {
    Upsert(entries, entry, EntryKey)
  }

  /** Logging the same entry twice is the same as logging it once. */
  lemma LogEntryIdempotent(entries: seq<FactorEntry>, entry: FactorEntry)
    ensures LogEntry(LogEntry(entries, entry), entry) == LogEntry(entries, entry)
  {
    UpsertIdempotent(entries, entry, EntryKey);
  }

  /** With one entry per (factor, date) before a log, there is still one
      afterwards, and the one carrying the logged key holds the logged
      completed flag and notes. */
  lemma LogEntryKeepsOneEntryPerDay(entries: seq<FactorEntry>, entry: FactorEntry)
    requires UniqueKeys(entries, EntryKey)
    ensures UniqueKeys(LogEntry(entries, entry), EntryKey)
    ensures forall e :: e in LogEntry(entries, entry) && e.factorId == entry.factorId && e.date == entry.date
              ==> e.completed == entry.completed && e.notes == entry.notes
  {
    UpsertKeepsKeysUnique(entries, entry, EntryKey);
    var r := LogEntry(entries, entry);
    forall e | e in r && e.factorId == entry.factorId && e.date == entry.date
      ensures e.completed == entry.completed && e.notes == entry.notes
    {
      var i :| 0 <= i < |r| && r[i] == e;
      assert EntryKey(r[i]) == EntryKey(entry);
    }
  }
}
