/** The roster controller: the one live roster, the configured sheet URL that
    alone decides the mode, the last load error and the local storage it
    persists to. Every operation is a pure transition; the network answer,
    the clock, the fresh id and whether a storage write succeeds are
    parameters. */
module Roster {
  import opened Wrappers
  import opened Employees
  import opened Storage

  /** The configuration key the sheet URL is kept under. */
  const SheetUrlKey: string := "google_sheet_url"

  /** The diagnostic shown after a failed sheet load. */
  const SheetError: string :=
    "Could not load data from Google Sheet. Please check the URL and ensure it's published correctly as a CSV."

  /** What fetching the sheet came to: a successful response's text, or any
      failure (network error, non-ok status, unreadable body). */
  datatype Fetch = FetchOk(text: string) | FetchFail

  /** The controller's state: the URL in force, the live roster, the last
      load error, what the configuration holds under `SheetUrlKey`, and what
      the roster storage holds. */
  datatype State = State(
    sheetUrl: string,
    employees: seq<Employee>,
    error: Option<string>,
    config: Option<string>,
    store: Stored)

  /** `!!sheetUrl`: sheet mode exactly when the URL is not the empty string. */
  predicate IsSheetMode(url: string): (sheet: bool)
    ensures sheet <==> |url| > 0
  {
    url != ""
  }

  /** The ids present in a roster. */
  function Ids(roster: seq<Employee>): set<string>
  {
    set k | 0 <= k < |roster| :: roster[k].id
  }

  /** `fetchAndParseSheet`: a fetched payload replaces the roster with its
      decoding and clears the error, even when it decodes to nothing; a
      failed fetch falls back to the local store's roster (which may seed the
      store) and sets the error. */
  function FetchAndParseSheet(s: State, fetch: Fetch, clock: nat -> nat, writeOk: bool): (r: State)
    ensures r.sheetUrl == s.sheetUrl && r.config == s.config
    ensures fetch.FetchOk? ==>
              r.employees == DecodeSheet(fetch.text, clock) && r.error.None? && r.store == s.store
    ensures fetch.FetchFail? ==>
              r.employees == GetEmployees(s.store, writeOk).roster
              && r.error == Some(SheetError)
              && r.store == GetEmployees(s.store, writeOk).store
  {
    match fetch
    case FetchOk(text) => s.(employees := DecodeSheet(text, clock), error := None)
    case FetchFail =>
      var read := GetEmployees(s.store, writeOk);
      s.(employees := read.roster, error := Some(SheetError), store := read.store)
  }

  /** `loadLocalData`: the roster is whatever the local store hands back and
      the error is cleared. */
  function LoadLocalData(s: State, writeOk: bool): (r: State)
    ensures r.sheetUrl == s.sheetUrl && r.config == s.config && r.error.None?
    ensures r.employees == GetEmployees(s.store, writeOk).roster
    ensures r.store == GetEmployees(s.store, writeOk).store
  {
    var read := GetEmployees(s.store, writeOk);
    s.(employees := read.roster, error := None, store := read.store)
  }

  /** The load effect that runs whenever the URL changes: the sheet in sheet
      mode, the local store otherwise. */
  function Reload(s: State, fetch: Fetch, clock: nat -> nat, writeOk: bool): (r: State)
    ensures IsSheetMode(s.sheetUrl) ==> r == FetchAndParseSheet(s, fetch, clock, writeOk)
    ensures !IsSheetMode(s.sheetUrl) ==> r == LoadLocalData(s, writeOk)
  {
    if IsSheetMode(s.sheetUrl) then FetchAndParseSheet(s, fetch, clock, writeOk)
    else LoadLocalData(s, writeOk)
  }

  /** Mounting the provider: the URL comes from configuration (missing reads
      as the empty string), the roster starts empty, then the load effect
      runs once. */
  function Mount(config: Option<string>, store: Stored, fetch: Fetch, clock: nat -> nat, writeOk: bool): (r: State)
    ensures r.sheetUrl == config.GetOr("") && r.config == config
    ensures IsSheetMode(r.sheetUrl) <==> config.Some? && config.value != ""
  {
    Reload(State(config.GetOr(""), [], None, config, store), fetch, clock, writeOk)
  }

  /** `addEmployee`: ignored in sheet mode; otherwise the card, given the
      fresh id, is appended at the end and the whole new roster is saved. */
  function AddEmployee(s: State, card: Card, freshId: string, writeOk: bool): (r: State)
    ensures IsSheetMode(s.sheetUrl) ==> r == s
    ensures !IsSheetMode(s.sheetUrl) ==>
              && |r.employees| == |s.employees| + 1
              && r.employees[..|s.employees|] == s.employees
              && r.employees[|s.employees|] == Employee(freshId, card)
              && r.store == SaveEmployees(s.store, r.employees, writeOk)
              && r.sheetUrl == s.sheetUrl && r.error == s.error && r.config == s.config
  {
    if IsSheetMode(s.sheetUrl) then s
    else
      var updated := s.employees + [Employee(freshId, card)];
      s.(employees := updated, store := SaveEmployees(s.store, updated, writeOk))
  }

  /** `prev.map(emp => emp.id === updated.id ? updated : emp)`. */
  function ReplaceById(roster: seq<Employee>, updated: Employee): (r: seq<Employee>)
    ensures |r| == |roster|
    ensures forall k :: 0 <= k < |r| ==>
              (roster[k].id == updated.id ==> r[k] == updated)
              && (roster[k].id != updated.id ==> r[k] == roster[k])
  {
    if roster == [] then []
    else [if roster[0].id == updated.id then updated else roster[0]] + ReplaceById(roster[1..], updated)
  }

  /** `updateEmployee`: ignored in sheet mode; otherwise every entry with the
      record's id is replaced by it and the whole new roster is saved. */
  function UpdateEmployee(s: State, updated: Employee, writeOk: bool): (r: State)
    ensures IsSheetMode(s.sheetUrl) ==> r == s
    ensures !IsSheetMode(s.sheetUrl) ==>
              && r.employees == ReplaceById(s.employees, updated)
              && r.store == SaveEmployees(s.store, r.employees, writeOk)
              && r.sheetUrl == s.sheetUrl && r.error == s.error && r.config == s.config
  {
    if IsSheetMode(s.sheetUrl) then s
    else
      var replaced := ReplaceById(s.employees, updated);
      s.(employees := replaced, store := SaveEmployees(s.store, replaced, writeOk))
  }

  /** `prev.filter(emp => emp.id !== id)`. */
  function RemoveById(roster: seq<Employee>, id: string): (r: seq<Employee>)
    ensures |r| <= |roster|
    ensures forall k :: 0 <= k < |r| ==> r[k].id != id
  {
    if roster == [] then []
    else (if roster[0].id == id then [] else [roster[0]]) + RemoveById(roster[1..], id)
  }

  /** `deleteEmployee`: ignored in sheet mode; otherwise every entry with the
      id is removed and the whole new roster is saved. */
  function DeleteEmployee(s: State, id: string, writeOk: bool): (r: State)
    ensures IsSheetMode(s.sheetUrl) ==> r == s
    ensures !IsSheetMode(s.sheetUrl) ==>
              && r.employees == RemoveById(s.employees, id)
              && r.store == SaveEmployees(s.store, r.employees, writeOk)
              && r.sheetUrl == s.sheetUrl && r.error == s.error && r.config == s.config
  {
    if IsSheetMode(s.sheetUrl) then s
    else
      var kept := RemoveById(s.employees, id);
      s.(employees := kept, store := SaveEmployees(s.store, kept, writeOk))
  }

  /** `employees.find(emp => emp.id === id)`: the first entry with the id, or
      nothing when no entry has it. */
  function GetEmployeeById(roster: seq<Employee>, id: string): (r: Option<Employee>)
    ensures r.None? <==> forall k :: 0 <= k < |roster| ==> roster[k].id != id
    ensures r.Some? ==> exists k :: 0 <= k < |roster| && roster[k] == r.value && r.value.id == id
                          && forall j :: 0 <= j < k ==> roster[j].id != id
  {
    if roster == [] then None
    else if roster[0].id == id then Some(roster[0])
    else
      var r := GetEmployeeById(roster[1..], id);
      assert r.Some? ==> exists k :: 0 <= k < |roster| && roster[k] == r.value && r.value.id == id
                          && forall j :: 0 <= j < k ==> roster[j].id != id by {
        if r.Some? {
          var k :| 0 <= k < |roster[1..]| && roster[1..][k] == r.value
                   && forall j :: 0 <= j < k ==> roster[1..][j].id != id;
          assert roster[k + 1] == r.value;
          assert forall j :: 0 <= j < k + 1 ==> roster[j].id != id by {
            forall j | 0 <= j < k + 1 ensures roster[j].id != id {
              if j > 0 { assert roster[j] == roster[1..][j - 1]; }
            }
          }
        }
      }
      r
  }

  /** `syncFromSheet`: a fresh sheet load in sheet mode, nothing at all in
      local mode. */
  function SyncFromSheet(s: State, fetch: Fetch, clock: nat -> nat, writeOk: bool): (r: State)
    ensures !IsSheetMode(s.sheetUrl) ==> r == s
    ensures IsSheetMode(s.sheetUrl) ==> r == FetchAndParseSheet(s, fetch, clock, writeOk)
  {
    if IsSheetMode(s.sheetUrl) then FetchAndParseSheet(s, fetch, clock, writeOk) else s
  }

  /** `setSheetUrl` and the load effect it triggers. The URL is always
      written to the configuration. Setting the URL already in force changes
      no state, so no effect runs; any other URL reloads under the mode that
      URL selects. */
  function SetSheetUrl(s: State, url: string, fetch: Fetch, clock: nat -> nat, writeOk: bool): (r: State)
    ensures r.sheetUrl == url && r.config == Some(url)
    ensures url == s.sheetUrl ==> r == s.(config := Some(url))
    ensures url != s.sheetUrl ==> r == Reload(s.(sheetUrl := url, config := Some(url)), fetch, clock, writeOk)
  {
    var saved := s.(config := Some(url));
    if url == s.sheetUrl then saved else Reload(saved.(sheetUrl := url), fetch, clock, writeOk)
  }
}
