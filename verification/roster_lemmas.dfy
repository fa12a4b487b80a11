/** Properties of the roster controller that relate several operations: the
    mode gate, persistence round trips, lookup after each mutation, and what
    a sheet load falls back to. */
module RosterLemmas {
  import opened Wrappers
  import opened JsText
  import opened Csv
  import opened Employees
  import opened Storage
  import opened Roster

  // ---- Removal by id ----------------------------------------------------

  /** One step of the filter: the first record is kept exactly when its id
      differs. */
  lemma RemoveByIdCons(x: Employee, rest: seq<Employee>, id: string)
    ensures RemoveById([x] + rest, id) == (if x.id == id then [] else [x]) + RemoveById(rest, id)
  {
    assert ([x] + rest)[1..] == rest;
  }

  /** The survivors of a delete are exactly the records with another id. */
  lemma {:induction false} RemoveByIdMembers(roster: seq<Employee>, id: string, e: Employee)
    ensures e in RemoveById(roster, id) <==> e in roster && e.id != id
  {
    if roster != [] {
      RemoveByIdMembers(roster[1..], id, e);
      RemoveByIdCons(roster[0], roster[1..], id);
      assert roster == [roster[0]] + roster[1..];
    }
  }

  /** Removal works piecewise, so the survivors keep their order. */
  lemma {:induction false} RemoveByIdAppend(a: seq<Employee>, b: seq<Employee>, id: string)
    ensures RemoveById(a + b, id) == RemoveById(a, id) + RemoveById(b, id)
  {
    if a != [] {
      RemoveByIdAppend(a[1..], b, id);
      assert a + b == [a[0]] + (a[1..] + b);
      RemoveByIdCons(a[0], a[1..] + b, id);
      RemoveByIdCons(a[0], a[1..], id);
      assert a == [a[0]] + a[1..];
    } else {
      assert a + b == b;
    }
  }

  /** A roster with no entry for the id loses nothing. */
  lemma {:induction false} RemoveAbsentId(roster: seq<Employee>, id: string)
    requires forall k :: 0 <= k < |roster| ==> roster[k].id != id
    ensures RemoveById(roster, id) == roster
  {
    if roster != [] {
      RemoveAbsentId(roster[1..], id);
      assert [roster[0]] + roster[1..] == roster;
    }
  }

  /** Deleting twice is deleting once. */
  lemma RemoveByIdIdempotent(roster: seq<Employee>, id: string)
    ensures RemoveById(RemoveById(roster, id), id) == RemoveById(roster, id)
  {
    RemoveAbsentId(RemoveById(roster, id), id);
  }

  /** After a delete the id is not found. */
  lemma LookupAfterRemove(roster: seq<Employee>, id: string)
    ensures GetEmployeeById(RemoveById(roster, id), id).None?
  {
  }

  // ---- Replacement by id ------------------------------------------------

  /** After an update of a present id, looking the id up gives the new record. */
  lemma LookupAfterReplace(roster: seq<Employee>, updated: Employee)
    requires updated.id in Ids(roster)
    ensures GetEmployeeById(ReplaceById(roster, updated), updated.id) == Some(updated)
  {
    var replaced := ReplaceById(roster, updated);
    var k :| 0 <= k < |roster| && roster[k].id == updated.id;
    assert replaced[k].id == updated.id;
    var found := GetEmployeeById(replaced, updated.id);
    var m :| 0 <= m < |replaced| && replaced[m] == found.value && found.value.id == updated.id;
    assert roster[m].id == updated.id;
  }

  /** Updating twice with the same record is updating once. */
  lemma ReplaceByIdIdempotent(roster: seq<Employee>, updated: Employee)
    ensures ReplaceById(ReplaceById(roster, updated), updated) == ReplaceById(roster, updated)
  {
  }

  // ---- Lookup -----------------------------------------------------------

  /** Appending a record can only change the lookup of its own id, and only
      when that id was not already present. */
  lemma {:induction false} LookupAfterAppend(roster: seq<Employee>, e: Employee, id: string)
    ensures GetEmployeeById(roster + [e], id)
         == if id in Ids(roster) then GetEmployeeById(roster, id)
            else if e.id == id then Some(e) else None
  {
    if roster == [] {
      assert roster + [e] == [e];
    } else {
      assert (roster + [e])[1..] == roster[1..] + [e];
      LookupAfterAppend(roster[1..], e, id);
      if roster[0].id != id {
        assert id in Ids(roster) <==> id in Ids(roster[1..]) by {
          if id in Ids(roster) {
            var k :| 0 <= k < |roster| && roster[k].id == id;
            assert roster[1..][k - 1] == roster[k];
          }
          if id in Ids(roster[1..]) {
            var k :| 0 <= k < |roster[1..]| && roster[1..][k].id == id;
            assert roster[k + 1] == roster[1..][k];
          }
        }
      } else {
        assert id in Ids(roster) by { assert roster[0].id == id; }
      }
    }
  }

  // ---- Mode gate --------------------------------------------------------

  /** In sheet mode no mutation touches the roster or the storage. */
  lemma SheetModeIsReadOnly(s: State, card: Card, freshId: string, e: Employee, id: string, writeOk: bool)
    requires IsSheetMode(s.sheetUrl)
    ensures AddEmployee(s, card, freshId, writeOk) == s
    ensures UpdateEmployee(s, e, writeOk) == s
    ensures DeleteEmployee(s, id, writeOk) == s
  {
  }

  /** The mode after a URL change is the mode the new URL selects. */
  lemma ModeFollowsUrl(s: State, url: string, fetch: Fetch, clock: nat -> nat, writeOk: bool)
    ensures IsSheetMode(SetSheetUrl(s, url, fetch, clock, writeOk).sheetUrl) <==> url != ""
  {
  }

  /** The URL set is the URL a later mount starts with, so the mode
      survives a restart. */
  lemma UrlSurvivesRestart(s: State, url: string, fetch: Fetch, clock: nat -> nat, writeOk: bool,
                           store: Stored, fetch2: Fetch, clock2: nat -> nat, writeOk2: bool)
    ensures var after := SetSheetUrl(s, url, fetch, clock, writeOk);
            Mount(after.config, store, fetch2, clock2, writeOk2).sheetUrl == after.sheetUrl
  {
  }

  // ---- Local mutations and persistence ----------------------------------

  /** In local mode an added card can be looked up by its fresh id, and a
      fresh load from storage gives back the roster with the card at the end. */
  lemma AddIsPersistedAndFound(s: State, card: Card, freshId: string, writeOk: bool)
    requires !IsSheetMode(s.sheetUrl) && freshId !in Ids(s.employees)
    ensures GetEmployeeById(AddEmployee(s, card, freshId, true).employees, freshId)
         == Some(Employee(freshId, card))
    ensures LoadLocalData(AddEmployee(s, card, freshId, true), writeOk).employees
         == s.employees + [Employee(freshId, card)]
  {
    var r := AddEmployee(s, card, freshId, true);
    assert r.employees == s.employees + [Employee(freshId, card)];
    LookupAfterAppend(s.employees, Employee(freshId, card), freshId);
  }

  /** Deleting the card just added under a fresh id restores the roster. */
  lemma AddThenDeleteRestores(s: State, card: Card, freshId: string, w1: bool, w2: bool)
    requires !IsSheetMode(s.sheetUrl) && freshId !in Ids(s.employees)
    ensures DeleteEmployee(AddEmployee(s, card, freshId, w1), freshId, w2).employees == s.employees
  {
    var added := AddEmployee(s, card, freshId, w1);
    assert added.employees == s.employees + [Employee(freshId, card)];
    RemoveByIdAppend(s.employees, [Employee(freshId, card)], freshId);
    assert forall k :: 0 <= k < |s.employees| ==> s.employees[k].id != freshId;
    RemoveAbsentId(s.employees, freshId);
    assert RemoveById([Employee(freshId, card)], freshId) == [];
  }

  /** A local update of a present id is persisted, and the stored roster
      finds the new record under its id. */
  lemma UpdateIsPersistedAndFound(s: State, updated: Employee, writeOk: bool)
    requires !IsSheetMode(s.sheetUrl) && updated.id in Ids(s.employees)
    ensures LoadLocalData(UpdateEmployee(s, updated, true), writeOk).employees
         == ReplaceById(s.employees, updated)
    ensures GetEmployeeById(LoadLocalData(UpdateEmployee(s, updated, true), writeOk).employees, updated.id)
         == Some(updated)
  {
    LookupAfterReplace(s.employees, updated);
  }

  /** A local delete is persisted, and the stored roster no longer has the id. */
  lemma DeleteIsPersisted(s: State, id: string, writeOk: bool)
    requires !IsSheetMode(s.sheetUrl)
    ensures LoadLocalData(DeleteEmployee(s, id, true), writeOk).employees == RemoveById(s.employees, id)
    ensures GetEmployeeById(LoadLocalData(DeleteEmployee(s, id, true), writeOk).employees, id).None?
  {
    LookupAfterRemove(s.employees, id);
  }

  /** After a local add, update or delete whose write goes through, a
      restart comes back in local mode with the edited roster. */
  lemma LocalEditsSurviveRestart(s: State, card: Card, freshId: string, updated: Employee, id: string,
                                 fetch: Fetch, clock: nat -> nat, writeOk: bool)
    requires !IsSheetMode(s.sheetUrl) && s.config.GetOr("") == ""
    ensures var a := AddEmployee(s, card, freshId, true);
            var m := Mount(a.config, a.store, fetch, clock, writeOk);
            !IsSheetMode(m.sheetUrl) && m.employees == a.employees
    ensures var u := UpdateEmployee(s, updated, true);
            var m := Mount(u.config, u.store, fetch, clock, writeOk);
            !IsSheetMode(m.sheetUrl) && m.employees == u.employees
    ensures var d := DeleteEmployee(s, id, true);
            var m := Mount(d.config, d.store, fetch, clock, writeOk);
            !IsSheetMode(m.sheetUrl) && m.employees == d.employees
  {
  }

  // ---- Loading ----------------------------------------------------------

  /** A failed sheet load is a local load plus the error message. */
  lemma FallbackIsLocalLoad(s: State, clock: nat -> nat, writeOk: bool)
    ensures FetchAndParseSheet(s, FetchFail, clock, writeOk)
         == LoadLocalData(s, writeOk).(error := Some(SheetError))
  {
  }

  /** A payload with fewer than two lines is a reachable, empty sheet: the
      roster becomes empty and there is no error and no fallback, whatever
      the storage holds. */
  lemma ShortPayloadIsEmptySheet(s: State, text: string, clock: nat -> nat, writeOk: bool)
    requires |Lines(text)| < 2
    ensures FetchAndParseSheet(s, FetchOk(text), clock, writeOk) == s.(employees := [], error := None)
  {
  }

  /** Syncing twice against an unchanged sheet (and an unchanged clock)
      leaves the same roster as syncing once; when the sheet is unreachable
      both syncs fall back to the same local roster. */
  lemma SyncTwice(s: State, fetch: Fetch, clock: nat -> nat, w1: bool, w2: bool)
    ensures SyncFromSheet(SyncFromSheet(s, fetch, clock, w1), fetch, clock, w2).employees
         == SyncFromSheet(s, fetch, clock, w1).employees
  {
    if IsSheetMode(s.sheetUrl) && fetch.FetchFail? {
      GetTwice(s.store, w1, w2);
    }
  }

  /** First start with empty storage in local mode: the three seed cards,
      written to storage when the write goes through. */
  lemma FirstStartSeeds(fetch: Fetch, clock: nat -> nat)
    ensures Mount(None, Absent, fetch, clock, true).employees == InitialData()
    ensures Mount(None, Absent, fetch, clock, true).store == Saved(InitialData())
    ensures Mount(None, Absent, fetch, clock, true).error.None?
  {
  }
}
