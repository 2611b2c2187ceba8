/** The mood-entry store: create-or-update by date, range listing ascending by
    date, and deletion by id (`create_or_update_entry`, `list_entries`,
    `delete_entry`).

    The `mood_entries` collection is a sequence of records in storage order.
    The specification functions (`ApplyUpsert`, `ListEntries`, `ApplyDelete`)
    say what each operation does to that sequence; the lemmas prove the
    store's promises about them; the class `EntryStore` holds the collection
    and its methods are proved against the functions. */
module Entries {
  import opened Basics
  import opened StringOrder

  /** The request body of `POST /entries` (`MoodEntryCreate`). */
  datatype EntryInput = EntryInput(date: string, moodValue: string, emoji: string, note: Option<string>)

  /** A stored mood entry (`MoodEntry`). */
  datatype Entry = Entry(
    id: string,
    date: string,
    moodValue: string,
    emoji: string,
    note: Option<string>,
    createdAt: Timestamp,
    updatedAt: Timestamp)

  /** At most one entry per date. */
  predicate UniqueDates(es: seq<Entry>)
  {
    forall i, j :: 0 <= i < j < |es| ==> es[i].date != es[j].date
  }

  /** No two entries share an id. */
  predicate UniqueIds(es: seq<Entry>)
  {
    forall i, j :: 0 <= i < j < |es| ==> es[i].id != es[j].id
  }

  /** The first entry, in storage order, that satisfies `p` (`find_one`,
      `update_one`, `delete_one` all act on the first match). */
  function FirstIndex(es: seq<Entry>, p: Entry -> bool): (r: Option<nat>)
    ensures r.Some? ==> r.value < |es| && p(es[r.value])
    ensures r.Some? ==> forall j :: 0 <= j < r.value ==> !p(es[j])
    ensures r.None? ==> forall j :: 0 <= j < |es| ==> !p(es[j])
  {
    if es == [] then None
    else if p(es[0]) then Some(0)
    else
      match FirstIndex(es[1..], p)
      case None => None
      case Some(k) => Some(k + 1)
  }

  /** `find_one({"date": d})`. */
  function FindByDate(es: seq<Entry>, d: string): (r: Option<nat>)
    ensures r.Some? ==> r.value < |es| && es[r.value].date == d
    ensures r.Some? ==> forall j :: 0 <= j < r.value ==> es[j].date != d
    ensures r.None? ==> forall j :: 0 <= j < |es| ==> es[j].date != d
  {
    FirstIndex(es, (e: Entry) => e.date == d)
  }

  /** The document matched by `{"id": id}`. */
  function FindById(es: seq<Entry>, id: string): (r: Option<nat>)
    ensures r.Some? ==> r.value < |es| && es[r.value].id == id
    ensures r.Some? ==> forall j :: 0 <= j < r.value ==> es[j].id != id
    ensures r.None? ==> forall j :: 0 <= j < |es| ==> es[j].id != id
  {
    FirstIndex(es, (e: Entry) => e.id == id)
  }

  /** In a store with one entry per date, the date lookup finds that entry. */
  lemma FindByDateUnique(es: seq<Entry>, i: nat)
    requires UniqueDates(es)
    requires i < |es|
    ensures FindByDate(es, es[i].date) == Some(i)
  {
    var r := FindByDate(es, es[i].date);
    assert r.Some?;
  }

  /** With unique ids, the id lookup finds the entry carrying that id. */
  lemma FindByIdUnique(es: seq<Entry>, i: nat)
    requires UniqueIds(es)
    requires i < |es|
    ensures FindById(es, es[i].id) == Some(i)
  {
    var r := FindById(es, es[i].id);
    assert r.Some?;
  }

  // ---------------------------------------------------------------------------
  // Create or update by date
  // ---------------------------------------------------------------------------

  /** `existing.update({...})`: new mood, emoji, note and update time; the id,
      date and creation time stay. */
  function Refreshed(e: Entry, p: EntryInput, now: Timestamp): Entry
  {
    e.(moodValue := p.moodValue, emoji := p.emoji, note := p.note, updatedAt := now)
  }

  /** A new entry for the submission, created and updated at `now`. */
  function Created(p: EntryInput, now: Timestamp, freshId: string): Entry
  {
    Entry(freshId, p.date, p.moodValue, p.emoji, p.note, now, now)
  }

  /** The collection after an upsert, and the entry returned to the caller. */
  datatype Upserted = Upserted(entries: seq<Entry>, entry: Entry)

  /** `create_or_update_entry`: refresh the entry stored for the date in place
      if there is one, otherwise append a new one. `now` and `freshId` stand
      for `datetime.now(timezone.utc)` and `uuid.uuid4()`. */
  function ApplyUpsert(es: seq<Entry>, p: EntryInput, now: Timestamp, freshId: string): Upserted
  {
    match FindByDate(es, p.date)
    case Some(i) =>
      var e := Refreshed(es[i], p, now);
      Upserted(es[i := e], e)
    case None =>
      var e := Created(p, now, freshId);
      Upserted(es + [e], e)
  }

  /** Upserting a date that already has an entry: that entry keeps its id,
      date and creation time, takes the new mood, emoji and note (an absent
      note overwrites an old one) and the new update time, stays the only
      entry for the date, and every other entry is untouched. */
  lemma UpsertExistingDate(es: seq<Entry>, p: EntryInput, now: Timestamp, freshId: string, i: nat)
    requires UniqueDates(es)
    requires i < |es| && es[i].date == p.date
    ensures var r := ApplyUpsert(es, p, now, freshId);
      && |r.entries| == |es|
      && r.entries[i] == r.entry
      && r.entry.id == es[i].id
      && r.entry.date == es[i].date
      && r.entry.createdAt == es[i].createdAt
      && r.entry.moodValue == p.moodValue
      && r.entry.emoji == p.emoji
      && r.entry.note == p.note
      && r.entry.updatedAt == now
      && (forall j :: 0 <= j < |es| && j != i ==> r.entries[j] == es[j])
      && (forall j :: 0 <= j < |r.entries| && r.entries[j].date == p.date ==> j == i)
  {
    FindByDateUnique(es, i);
  }

  /** Upserting a date with no entry appends exactly one entry carrying the
      submission, the fresh id, and `now` as both creation and update time;
      it is the only entry for its date and nothing else changes. */
  lemma UpsertNewDate(es: seq<Entry>, p: EntryInput, now: Timestamp, freshId: string)
    requires forall j :: 0 <= j < |es| ==> es[j].date != p.date
    ensures var r := ApplyUpsert(es, p, now, freshId);
      && r.entries == es + [r.entry]
      && r.entry.id == freshId
      && r.entry.date == p.date
      && r.entry.moodValue == p.moodValue
      && r.entry.emoji == p.emoji
      && r.entry.note == p.note
      && r.entry.createdAt == now
      && r.entry.updatedAt == now
      && (forall j :: 0 <= j < |r.entries| && r.entries[j].date == p.date ==> j == |es|)
  {
  }

  /** An upsert never creates a second entry for a date. */
  lemma UpsertKeepsDatesUnique(es: seq<Entry>, p: EntryInput, now: Timestamp, freshId: string)
    requires UniqueDates(es)
    ensures UniqueDates(ApplyUpsert(es, p, now, freshId).entries)
  {
    var r := ApplyUpsert(es, p, now, freshId);
    match FindByDate(es, p.date)
    case Some(i) =>
      forall a, b | 0 <= a < b < |r.entries|
        ensures r.entries[a].date != r.entries[b].date
      {
        assert r.entries[a].date == es[a].date && r.entries[b].date == es[b].date;
      }
    case None =>
  }

  /** With a fresh id for a new entry, an upsert keeps the store's invariant:
      one entry per date and one entry per id. */
  lemma UpsertKeepsStoreInvariant(es: seq<Entry>, p: EntryInput, now: Timestamp, freshId: string)
    requires UniqueDates(es) && UniqueIds(es)
    requires FindByDate(es, p.date).None? ==> FindById(es, freshId).None?
    ensures UniqueDates(ApplyUpsert(es, p, now, freshId).entries)
    ensures UniqueIds(ApplyUpsert(es, p, now, freshId).entries)
  {
    UpsertKeepsDatesUnique(es, p, now, freshId);
    var r := ApplyUpsert(es, p, now, freshId);
    match FindByDate(es, p.date)
    case Some(i) =>
      forall a, b | 0 <= a < b < |r.entries|
        ensures r.entries[a].id != r.entries[b].id
      {
        assert r.entries[a].id == es[a].id && r.entries[b].id == es[b].id;
      }
    case None =>
  }

  /** One submission to `POST /entries`, with the clock reading and the id
      the service would generate for it. */
  datatype Submission = Submission(input: EntryInput, now: Timestamp, freshId: string)

  /** The collection after a sequence of submissions, in order. */
  function UpsertAll(es: seq<Entry>, subs: seq<Submission>): seq<Entry>
    decreases |subs|
  {
    if subs == [] then es
    else
      var last := subs[|subs| - 1];
      ApplyUpsert(UpsertAll(es, subs[..|subs| - 1]), last.input, last.now, last.freshId).entries
  }

  /** Any number of submissions for one date leave exactly one entry for it:
      its id and creation time are those of the entry stored before, or of
      the first submission when there was none; its mood, emoji, note and
      update time are those of the last submission. */
  lemma {:induction false} RepeatedUpsertsSameDate(es: seq<Entry>, subs: seq<Submission>, d: string)
    requires UniqueDates(es)
    requires |subs| > 0
    requires forall k :: 0 <= k < |subs| ==> subs[k].input.date == d
    ensures var out := UpsertAll(es, subs);
      var last := subs[|subs| - 1];
      && UniqueDates(out)
      && FindByDate(out, d).Some?
      && out[FindByDate(out, d).value].id
         == (if FindByDate(es, d).Some? then es[FindByDate(es, d).value].id else subs[0].freshId)
      && out[FindByDate(out, d).value].createdAt
         == (if FindByDate(es, d).Some? then es[FindByDate(es, d).value].createdAt else subs[0].now)
      && out[FindByDate(out, d).value].moodValue == last.input.moodValue
      && out[FindByDate(out, d).value].emoji == last.input.emoji
      && out[FindByDate(out, d).value].note == last.input.note
      && out[FindByDate(out, d).value].updatedAt == last.now
    decreases |subs|
  {
    var last := subs[|subs| - 1];
    var before := UpsertAll(es, subs[..|subs| - 1]);
    var out := UpsertAll(es, subs);
    assert out == ApplyUpsert(before, last.input, last.now, last.freshId).entries;
    if |subs| == 1 {
      assert subs[..0] == [];
      assert before == es;
      UpsertKeepsDatesUnique(es, last.input, last.now, last.freshId);
      match FindByDate(es, d)
      case Some(i) =>
        UpsertExistingDate(es, last.input, last.now, last.freshId, i);
        FindByDateUnique(out, i);
      case None =>
        UpsertNewDate(es, last.input, last.now, last.freshId);
        FindByDateUnique(out, |es|);
    } else {
      var prefix := subs[..|subs| - 1];
      assert prefix[0] == subs[0];
      assert forall k :: 0 <= k < |prefix| ==> prefix[k].input.date == d;
      RepeatedUpsertsSameDate(es, prefix, d);
      var i := FindByDate(before, d).value;
      UpsertExistingDate(before, last.input, last.now, last.freshId, i);
      UpsertKeepsDatesUnique(before, last.input, last.now, last.freshId);
      FindByDateUnique(out, i);
    }
  }

  // ---------------------------------------------------------------------------
  // Range listing
  // ---------------------------------------------------------------------------

  /** The `$gte`/`$lte` filter on `date` that `list_entries` builds: both
      bounds when both are given, one side open when only one is, no filter
      when neither is; an empty-string bound counts as absent. */
  function InRange(d: string, start: Option<string>, end: Option<string>): (r: bool)
    ensures r <==> (Given(start) ==> StrLe(start.value, d)) && (Given(end) ==> StrLe(d, end.value))
  {
    if Given(start) && Given(end) then StrLe(start.value, d) && StrLe(d, end.value)
    else if Given(start) then StrLe(start.value, d)
    else if Given(end) then StrLe(d, end.value)
    else true
  }

  /** The stored entries that pass the range filter, in storage order. */
  function Filter(es: seq<Entry>, start: Option<string>, end: Option<string>): (r: seq<Entry>)
    ensures forall x :: multiset(r)[x] == if InRange(x.date, start, end) then multiset(es)[x] else 0
  {
    if es == [] then []
    else
      var rest := Filter(es[1..], start, end);
      assert es == [es[0]] + es[1..];
      if InRange(es[0].date, start, end) then [es[0]] + rest else rest
  }

  predicate SortedByDate(s: seq<Entry>)
  {
    forall i, j :: 0 <= i < j < |s| ==> StrLe(s[i].date, s[j].date)
  }

  /** Insertion into a date-sorted sequence, before the first entry with a
      date no earlier than `x`'s. */
  function InsertByDate(x: Entry, s: seq<Entry>): (r: seq<Entry>)
    ensures multiset(r) == multiset(s) + multiset{x}
  {
    if s == [] || StrLe(x.date, s[0].date) then [x] + s
    else
      assert s == [s[0]] + s[1..];
      [s[0]] + InsertByDate(x, s[1..])
  }

  /** Every entry after an insertion is the inserted one or was there before. */
  lemma InsertedOrKept(x: Entry, s: seq<Entry>, k: nat)
    requires k < |InsertByDate(x, s)|
    ensures InsertByDate(x, s)[k] == x || InsertByDate(x, s)[k] in s
  {
    var r := InsertByDate(x, s);
    assert r[k] in multiset(r);
  }

  lemma {:induction false} InsertByDateSorted(x: Entry, s: seq<Entry>)
    requires SortedByDate(s)
    ensures SortedByDate(InsertByDate(x, s))
  {
    var r := InsertByDate(x, s);
    if s == [] {
    } else if StrLe(x.date, s[0].date) {
      forall i, j | 0 <= i < j < |r| ensures StrLe(r[i].date, r[j].date) {
        if i == 0 && j > 1 {
          assert r[j] == s[j - 1];
          StrLeTransitive(x.date, s[0].date, s[j - 1].date);
        }
      }
    } else {
      StrLeTotal(x.date, s[0].date);
      var rest := InsertByDate(x, s[1..]);
      InsertByDateSorted(x, s[1..]);
      forall k | 0 <= k < |rest| ensures StrLe(s[0].date, rest[k].date) {
        InsertedOrKept(x, s[1..], k);
        if rest[k] != x {
          var m :| 0 <= m < |s[1..]| && s[1..][m] == rest[k];
          assert s[m + 1] == rest[k];
        }
      }
      assert r == [s[0]] + rest;
    }
  }

  /** A stable insertion sort on the date (the `sort=[("date", 1)]` of the
      query). */
  function SortByDate(s: seq<Entry>): (r: seq<Entry>)
    ensures multiset(r) == multiset(s)
  {
    if s == [] then []
    else
      assert s == [s[0]] + s[1..];
      InsertByDate(s[0], SortByDate(s[1..]))
  }

  lemma {:induction false} SortByDateSorted(s: seq<Entry>)
    ensures SortedByDate(SortByDate(s))
  {
    if s != [] {
      SortByDateSorted(s[1..]);
      InsertByDateSorted(s[0], SortByDate(s[1..]));
    }
  }

  /** `list_entries(start, end)`: the matching entries, ascending by date. */
  function ListEntries(es: seq<Entry>, start: Option<string>, end: Option<string>): seq<Entry>
  {
    SortByDate(Filter(es, start, end))
  }

  /** The listing is ascending by date and holds exactly the stored entries
      whose date lies in the range, each as often as it is stored. */
  lemma ListEntriesCorrect(es: seq<Entry>, start: Option<string>, end: Option<string>)
    ensures SortedByDate(ListEntries(es, start, end))
    ensures forall x ::
      multiset(ListEntries(es, start, end))[x] == if InRange(x.date, start, end) then multiset(es)[x] else 0
  {
    SortByDateSorted(Filter(es, start, end));
  }

  /** With neither bound (or only empty-string bounds) every entry is listed. */
  lemma ListWithoutBounds(es: seq<Entry>, start: Option<string>, end: Option<string>)
    requires !Given(start) && !Given(end)
    ensures multiset(ListEntries(es, start, end)) == multiset(es)
  {
    var r := ListEntries(es, start, end);
    assert forall x :: multiset(r)[x] == multiset(es)[x];
  }

  /** A start bound after the end bound selects nothing; it is not an error. */
  lemma ListInvertedRangeIsEmpty(es: seq<Entry>, start: Option<string>, end: Option<string>)
    requires Given(start) && Given(end) && StrLt(end.value, start.value)
    ensures ListEntries(es, start, end) == []
  {
    var r := ListEntries(es, start, end);
    if r != [] {
      var x := r[0];
      assert multiset(r)[x] > 0;
      assert StrLe(start.value, x.date) && StrLe(x.date, end.value);
      StrLeTransitive(start.value, x.date, end.value);
      assert false;
    }
  }

  /** Removing the same first element from two sequences with equal
      multisets leaves equal multisets. */
  lemma TailsHaveEqualMultisets(a: seq<Entry>, b: seq<Entry>)
    requires a != [] && b != [] && a[0] == b[0]
    requires multiset(a) == multiset(b)
    ensures multiset(a[1..]) == multiset(b[1..])
  {
    assert a == [a[0]] + a[1..] && b == [b[0]] + b[1..];
    assert multiset(a[1..]) == multiset(a) - multiset{a[0]};
    assert multiset(b[1..]) == multiset(b) - multiset{b[0]};
  }

  /** Two date-sorted arrangements of the same entries with distinct dates
      begin with the same entry. */
  lemma SortedHeadsAgree(a: seq<Entry>, b: seq<Entry>)
    requires SortedByDate(a) && SortedByDate(b) && UniqueDates(a)
    requires a != [] && multiset(a) == multiset(b)
    ensures b != [] && a[0] == b[0]
  {
    assert a[0] in multiset(b);
    assert b != [];
    assert b[0] in multiset(a);
    var ia :| 0 <= ia < |a| && a[ia] == b[0];
    var ib :| 0 <= ib < |b| && b[ib] == a[0];
    StrLeReflexive(a[0].date);
    StrLeReflexive(b[0].date);
    assert StrLe(a[0].date, a[ia].date);
    assert StrLe(b[0].date, b[ib].date);
    StrLeAntisymmetric(a[0].date, b[0].date);
  }

  /** Two date-sorted arrangements of the same entries with distinct dates
      are identical, so the listing of a valid store does not depend on how
      the sort breaks ties. */
  lemma {:induction false} SortedByDateUnique(a: seq<Entry>, b: seq<Entry>)
    requires SortedByDate(a) && SortedByDate(b) && UniqueDates(a)
    requires multiset(a) == multiset(b)
    ensures a == b
    decreases |a|
  {
    assert |a| == |multiset(a)| == |multiset(b)| == |b|;
    if a != [] {
      SortedHeadsAgree(a, b);
      TailsHaveEqualMultisets(a, b);
      SortedByDateUnique(a[1..], b[1..]);
      assert a == [a[0]] + a[1..] && b == [b[0]] + b[1..];
    }
  }

  // ---------------------------------------------------------------------------
  // Deletion by id
  // ---------------------------------------------------------------------------

  /** `{"ok": True}` or the 404 `Entry not found`. */
  datatype DeleteOutcome = Deleted | NotFound

  datatype AfterDelete = AfterDelete(entries: seq<Entry>, outcome: DeleteOutcome)

  /** `delete_entry(id)`: remove the first entry with that id, or report that
      there is none. */
  function ApplyDelete(es: seq<Entry>, id: string): AfterDelete
  {
    match FindById(es, id)
    case None => AfterDelete(es, NotFound)
    case Some(i) => AfterDelete(es[..i] + es[i + 1..], Deleted)
  }

  /** Deleting a stored id removes exactly that entry and succeeds; no entry
      with that id remains. */
  lemma DeleteExisting(es: seq<Entry>, i: nat)
    requires UniqueIds(es)
    requires i < |es|
    ensures var r := ApplyDelete(es, es[i].id);
      && r.outcome == Deleted
      && r.entries == es[..i] + es[i + 1..]
      && multiset(r.entries) + multiset{es[i]} == multiset(es)
      && forall j :: 0 <= j < |r.entries| ==> r.entries[j].id != es[i].id
  {
    FindByIdUnique(es, i);
    var r := ApplyDelete(es, es[i].id);
    assert es == es[..i] + [es[i]] + es[i + 1..];
    forall j | 0 <= j < |r.entries| ensures r.entries[j].id != es[i].id {
      if j < i {
        assert r.entries[j] == es[j];
      } else {
        assert r.entries[j] == es[j + 1];
      }
    }
  }

  /** Deleting an unknown id reports not-found and changes nothing. */
  lemma DeleteMissing(es: seq<Entry>, id: string)
    requires forall j :: 0 <= j < |es| ==> es[j].id != id
    ensures ApplyDelete(es, id) == AfterDelete(es, NotFound)
  {
  }

  /** A delete succeeds exactly when the id is stored, and a second delete of
      the same id reports not-found and leaves the store as the first left it. */
  lemma DeleteTwice(es: seq<Entry>, id: string)
    requires UniqueIds(es)
    ensures ApplyDelete(es, id).outcome == Deleted <==> exists j :: 0 <= j < |es| && es[j].id == id
    ensures var once := ApplyDelete(es, id).entries;
      ApplyDelete(once, id) == AfterDelete(once, NotFound)
  {
    match FindById(es, id)
    case None =>
    case Some(i) =>
      DeleteExisting(es, i);
  }

  /** Deletion keeps one entry per date and one entry per id. */
  lemma DeleteKeepsStoreInvariant(es: seq<Entry>, id: string)
    requires UniqueDates(es) && UniqueIds(es)
    ensures UniqueDates(ApplyDelete(es, id).entries)
    ensures UniqueIds(ApplyDelete(es, id).entries)
  {
    match FindById(es, id)
    case None =>
    case Some(i) =>
      var r := es[..i] + es[i + 1..];
      forall a, b | 0 <= a < b < |r|
        ensures r[a].date != r[b].date && r[a].id != r[b].id
      {
        var a' := if a < i then a else a + 1;
        var b' := if b < i then b else b + 1;
        assert r[a] == es[a'] && r[b] == es[b'];
      }
  }

  // ---------------------------------------------------------------------------
  // The collection
  // ---------------------------------------------------------------------------

  /** The `mood_entries` collection. */
  class EntryStore {
    var entries: seq<Entry>

    /** One entry per date and one entry per id. */
    ghost predicate Valid()
      reads this
    {
      UniqueDates(entries) && UniqueIds(entries)
    }

    constructor ()
      ensures Valid() && entries == []
    {
      entries := [];
    }

    /** `POST /entries`. The fresh id stands for `uuid.uuid4()`, which never
        repeats an id already stored. */
    method CreateOrUpdate(payload: EntryInput, now: Timestamp, freshId: string) returns (entry: Entry)
      requires Valid()
      requires FindByDate(entries, payload.date).None? ==> FindById(entries, freshId).None?
      modifies this
      ensures Valid()
      ensures Upserted(entries, entry) == ApplyUpsert(old(entries), payload, now, freshId)
    {
      UpsertKeepsStoreInvariant(entries, payload, now, freshId);
      var existing := FindByDate(entries, payload.date);
      if existing.Some? {
        entry := Refreshed(entries[existing.value], payload, now);
        entries := entries[existing.value := entry];
      } else {
        entry := Created(payload, now, freshId);
        entries := entries + [entry];
      }
    }

    /** `GET /entries?start=&end=`. */
    method List(start: Option<string>, end: Option<string>) returns (result: seq<Entry>)
      ensures result == ListEntries(entries, start, end)
      ensures SortedByDate(result)
    {
      ListEntriesCorrect(entries, start, end);
      result := ListEntries(entries, start, end);
    }

    /** `DELETE /entries/{id}`. */
    method Delete(id: string) returns (outcome: DeleteOutcome)
      requires Valid()
      modifies this
      ensures Valid()
      ensures AfterDelete(entries, outcome) == ApplyDelete(old(entries), id)
    {
      DeleteKeepsStoreInvariant(entries, id);
      var found := FindById(entries, id);
      if found.None? {
        outcome := NotFound;
      } else {
        entries := entries[..found.value] + entries[found.value + 1..];
        outcome := Deleted;
      }
    }
  }
}
