/** The local store adapter: the whole roster kept as one serialised value
    under a fixed key of the browser's key-value storage, seeded with three
    sample cards on first use. */
module Storage {
  import opened Employees

  /** The fixed key the roster is kept under. */
  const DbKey: string := "digital_business_cards_db"

  /** What the storage holds under `DbKey`. `Absent` is no item; `Blank` is
      the empty string, which the adapter treats the same way; `Saved` is a
      serialised roster; `Corrupt` is a value that does not parse. */
  datatype Stored = Absent | Blank | Saved(roster: seq<Employee>) | Corrupt

  /** The outcome of a read: the roster handed back and the storage after. */
  datatype Read = Read(roster: seq<Employee>, store: Stored)

  predicate DistinctIds(roster: seq<Employee>)
  {
    forall i, j :: 0 <= i < j < |roster| ==> roster[i].id != roster[j].id
  }

  /** The seed roster: three sample cards. */
  function InitialData(): (seed: seq<Employee>)
    ensures |seed| == 3
  {
    seq(3, k requires 0 <= k < 3 => SeedCard(k))
  }

  /** The seed cards by position. */
  function SeedCard(k: nat): Employee
    requires k < 3
  {
    match k
    case 0 =>
      Employee("d8a8f8b8-4b7b-4b7b-8b8b-8b8b8b8b8b8b", Card(
        "Alex Johnson", "Senior Software Engineer", "Innovatech Solutions",
        "+1-202-555-0178", "alex.j@innovatech.com", "innovatech.com",
        "https://picsum.photos/seed/alex/400", "https://picsum.photos/seed/logo1/200"))
    case 1 =>
      Employee("c7a7f7b7-3b7b-3b7b-7b7b-7b7b7b7b7b7b", Card(
        "Samantha Carter", "Lead UX Designer", "Innovatech Solutions",
        "+1-202-555-0182", "sam.c@innovatech.com", "innovatech.com",
        "https://picsum.photos/seed/samantha/400", "https://picsum.photos/seed/logo1/200"))
    case _ =>
      Employee("b6a6f6b6-2b6b-2b6b-6b6b-6b6b6b6b6b6b", Card(
        "Michael Chen", "Product Manager", "NextGen Systems",
        "+1-310-555-0145", "michael.chen@nextgen.io", "nextgen.io",
        "https://picsum.photos/seed/michael/400", "https://picsum.photos/seed/logo2/200"))
  }

  /** The seed is three cards, Alex Johnson, Samantha Carter and Michael Chen
      in that order, with non-empty, pairwise different ids. */
  lemma SeedCards()
    ensures |InitialData()| == 3
    ensures InitialData()[0].card.name == "Alex Johnson"
    ensures InitialData()[1].card.name == "Samantha Carter"
    ensures InitialData()[2].card.name == "Michael Chen"
    ensures DistinctIds(InitialData())
    ensures forall k :: 0 <= k < |InitialData()| ==> InitialData()[k].id != ""
  {
    var seed := InitialData();
    assert seed[0].id[0] == 'd' && seed[1].id[0] == 'c' && seed[2].id[0] == 'b';
  }

  /** `saveEmployees`: a full overwrite when the write goes through; when it
      fails (a full quota, say) the failure is swallowed and the storage
      keeps what it had. */
  function SaveEmployees(store: Stored, roster: seq<Employee>, writeOk: bool): (after: Stored)
    ensures writeOk ==> after.Saved? && after.roster == roster
    ensures !writeOk ==> after == store
  {
    if writeOk then Saved(roster) else store
  }

  /** `getEmployees`: no item (or the empty string) yields the seed, which is
      also written back; a saved roster is handed back as it is with no
      write; a value that does not parse yields the seed and is left in
      place. */
  function GetEmployees(store: Stored, writeOk: bool): (r: Read)
    ensures store.Saved? ==> r == Read(store.roster, store)
    ensures !store.Saved? ==> r.roster == InitialData()
    ensures (store.Absent? || store.Blank?) ==> r.store == SaveEmployees(store, InitialData(), writeOk)
    ensures store.Corrupt? ==> r.store == Corrupt
  {
    match store
    case Absent | Blank => Read(InitialData(), SaveEmployees(store, InitialData(), writeOk))
    case Saved(roster) => Read(roster, store)
    case Corrupt => Read(InitialData(), store)
  }

  /** A read after a successful save gives back exactly what was saved. */
  lemma SaveThenGet(store: Stored, roster: seq<Employee>, writeOk: bool)
    ensures GetEmployees(SaveEmployees(store, roster, true), writeOk) == Read(roster, Saved(roster))
  {
  }

  /** Reading twice gives the same roster, whatever the storage held and
      whichever writes went through. */
  lemma GetTwice(store: Stored, w1: bool, w2: bool)
    ensures GetEmployees(GetEmployees(store, w1).store, w2).roster == GetEmployees(store, w1).roster
  {
  }
}
