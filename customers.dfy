/** The SQLite-backed customers routes (backend/routes/customers.js). The
    `customers` table is a sequence of rows held by `CustomerTable`; each
    route handler is a method that returns the reply and updates the rows.
    The clock is a parameter. */
module Customers {
  import opened Common
  import Offers

  const MsgNotFound: string := "Customer not found"

  /** A row of the `customers` table. A NULL text column is "". */
  datatype Customer = Customer(
    id: string,
    name: string,
    email: string,
    age: Option<int>,
    address: string,
    contact: string,
    createdAt: string,
    updatedAt: string)

  /** The fields a POST or PUT body carries; "" stands for an absent field. */
  datatype CustomerBody = CustomerBody(
    name: string,
    email: string,
    age: Option<int>,
    address: string,
    contact: string)

  /** The GET query parameters; "" stands for an absent parameter. */
  datatype CustomerQuery = CustomerQuery(name: string, contact: string, address: string)

  function Ids(rows: seq<Customer>): (ids: seq<string>)
    ensures |ids| == |rows|
    ensures forall i :: 0 <= i < |rows| ==> ids[i] == rows[i].id
  {
    seq(|rows|, i requires 0 <= i < |rows| => rows[i].id)
  }

  /** `id` is the table's primary key. */
  ghost predicate UniqueIds(rows: seq<Customer>)
  {
    forall i, j :: 0 <= i < j < |rows| ==> rows[i].id != rows[j].id
  }

  function HasId(id: string): Customer -> bool
  {
    (c: Customer) => c.id == id
  }

  function IdIsNot(id: string): Customer -> bool
  {
    (c: Customer) => c.id != id
  }

  function FindById(rows: seq<Customer>, id: string): (r: Option<nat>)
    ensures r.Some? ==> r.value < |rows| && rows[r.value].id == id
    ensures r.None? <==> id !in Ids(rows)
  {
    var r := FirstIndex(rows, HasId(id));
    assert r.Some? ==> rows[r.value].id == id;
    r
  }

  /** `DELETE FROM customers WHERE id = ?` on a table with unique ids removes
      exactly the one row with that id. */
  lemma RemoveUnique(rows: seq<Customer>, k: nat)
    requires UniqueIds(rows) && k < |rows|
    ensures Filter(rows, IdIsNot(rows[k].id)) == rows[..k] + rows[k + 1..]
  {
    FilterRemovesOne(rows, k, IdIsNot(rows[k].id));
  }

  /** Removing row `k` keeps the ids unique, and its id is then gone. */
  lemma RemoveKeepsUnique(rows: seq<Customer>, k: nat)
    requires UniqueIds(rows) && k < |rows|
    ensures UniqueIds(rows[..k] + rows[k + 1..])
    ensures rows[k].id !in Ids(rows[..k] + rows[k + 1..])
  {
    var r := rows[..k] + rows[k + 1..];
    forall i | 0 <= i < |r|
      ensures r[i] == rows[if i < k then i else i + 1]
    {
    }
    forall i, j | 0 <= i < j < |r|
      ensures r[i].id != r[j].id
    {
      assert r[i] == rows[if i < k then i else i + 1];
      assert r[j] == rows[if j < k then j else j + 1];
    }
    forall i | 0 <= i < |r|
      ensures Ids(r)[i] != rows[k].id
    {
      assert r[i] == rows[if i < k then i else i + 1];
    }
  }

  // ---------------------------------------------------------------------
  // GET /customers

  /** A case-insensitive substring filter that is ignored when empty. */
  predicate LikeFilter(column: string, filter: string)
  {
    Truthy(filter) ==> Contains(ToLower(column), ToLower(filter))
  }

  /** The WHERE clause GET builds: every given filter must hold. */
  predicate Matches(c: Customer, q: CustomerQuery)
  {
    && LikeFilter(c.name, q.name)
    && LikeFilter(c.contact, q.contact)
    && LikeFilter(c.address, q.address)
  }

  function MatchesQuery(q: CustomerQuery): Customer -> bool
  {
    (c: Customer) => Matches(c, q)
  }

  /** GET /customers: the customers satisfying all given filters, in table
      order. */
  function Select(rows: seq<Customer>, q: CustomerQuery): (r: seq<Customer>)
    ensures forall c :: c in r <==> c in rows && Matches(c, q)
    ensures q == CustomerQuery("", "", "") ==> r == rows
  {
    FilterMembers(rows, MatchesQuery(q));
    if q == CustomerQuery("", "", "") then
      FilterAll(rows, MatchesQuery(q));
      Filter(rows, MatchesQuery(q))
    else
      Filter(rows, MatchesQuery(q))
  }

  /** The name filter ignores case on both sides: any customer whose name
      holds the filter text, spelled in any mix of ASCII cases, is found. */
  lemma NameFilterIgnoresCase(rows: seq<Customer>, name: string, k: nat)
    requires k < |rows| && name != []
    requires Contains(ToLower(rows[k].name), ToLower(name))
    ensures rows[k] in Select(rows, CustomerQuery(ToLower(name), "", ""))
    ensures rows[k] in Select(rows, CustomerQuery(name, "", ""))
  {
    ToLowerIdempotent(name);
  }

  // ---------------------------------------------------------------------
  // POST /customers

  /** A new row: the body's fields verbatim, both timestamps `now`. */
  function NewCustomer(id: string, b: CustomerBody, now: string): Customer
  {
    Customer(id, b.name, b.email, b.age, b.address, b.contact, now, now)
  }

  /** The table after one INSERT of `b` under the next free id. */
  function Insert(rows: seq<Customer>, b: CustomerBody, now: string): (r: seq<Customer>)
    ensures |r| == |rows| + 1 && r[..|rows|] == rows
    ensures r[|rows|] == NewCustomer(r[|rows|].id, b, now)
    ensures r[|rows|].id !in Ids(rows) && CastInt(r[|rows|].id) == MaxId(Ids(rows)) + 1
    ensures UniqueIds(rows) ==> UniqueIds(r)
  {
    var c := NewCustomer(NextId(Ids(rows)), b, now);
    var r := rows + [c];
    assert forall i :: 0 <= i < |rows| ==> rows[i].id in Ids(rows);
    r
  }

  // ---------------------------------------------------------------------
  // PUT /customers/:idOrName

  /** The PUT lookup: the id equals the parameter, or the lower-cased name
      equals the lower-cased parameter. */
  predicate IdOrName(c: Customer, key: string)
  {
    c.id == key || ToLower(c.name) == ToLower(key)
  }

  function MatchesKey(key: string): Customer -> bool
  {
    (c: Customer) => IdOrName(c, key)
  }

  /** The first row the lookup matches. */
  function FindByIdOrName(rows: seq<Customer>, key: string): (r: Option<nat>)
    ensures r.Some? ==> r.value < |rows| && IdOrName(rows[r.value], key)
                        && forall j :: 0 <= j < r.value ==> !IdOrName(rows[j], key)
    ensures r.None? <==> forall c :: c in rows ==> !IdOrName(c, key)
  {
    FirstIndex(rows, MatchesKey(key))
  }

  /** The lookup by name does not depend on how the parameter is cased. */
  lemma FindIgnoresNameCase(rows: seq<Customer>, key: string)
    requires forall c :: c in rows ==> c.id != key && c.id != ToLower(key)
    ensures FindByIdOrName(rows, key) == FindByIdOrName(rows, ToLower(key))
  {
    ToLowerIdempotent(key);
    assert forall i :: 0 <= i < |rows| ==> IdOrName(rows[i], key) == IdOrName(rows[i], ToLower(key));
    FirstIndexSame(rows, MatchesKey(key), MatchesKey(ToLower(key)));
  }

  /** The PUT merge: each field takes the body's value when it is truthy and
      keeps the stored one otherwise; `updatedAt` becomes `now`. */
  function Merge(c: Customer, b: CustomerBody, now: string): (r: Customer)
    ensures r.id == c.id && r.createdAt == c.createdAt && r.updatedAt == now
    ensures r.name == (if Truthy(b.name) then b.name else c.name)
    ensures r.email == (if Truthy(b.email) then b.email else c.email)
    ensures r.age == (if TruthyNum(b.age) then b.age else c.age)
    ensures r.address == (if Truthy(b.address) then b.address else c.address)
    ensures r.contact == (if Truthy(b.contact) then b.contact else c.contact)
  {
    c.(name := Or(b.name, c.name),
       email := Or(b.email, c.email),
       age := OrNum(b.age, c.age),
       address := Or(b.address, c.address),
       contact := Or(b.contact, c.contact),
       updatedAt := now)
  }

  /** The merge never touches `id` or `createdAt`, each field is the body's
      exactly when the body's is truthy, and applying the same body twice is
      the same as applying it once. */
  lemma MergeFields(c: Customer, b: CustomerBody, t1: string, t2: string)
    ensures Merge(c, b, t1).id == c.id && Merge(c, b, t1).createdAt == c.createdAt
    ensures Merge(c, b, t1).name == (if b.name != "" then b.name else c.name)
    ensures Merge(c, b, t1).email == (if b.email != "" then b.email else c.email)
    ensures Merge(c, b, t1).age == (if TruthyNum(b.age) then b.age else c.age)
    ensures Merge(c, b, t1).address == (if b.address != "" then b.address else c.address)
    ensures Merge(c, b, t1).contact == (if b.contact != "" then b.contact else c.contact)
    ensures Merge(Merge(c, b, t1), b, t2) == Merge(c, b, t2)
  {
  }

  // ---------------------------------------------------------------------
  // The seed route

  /** The five fixed test customers, in insertion order. */
  const TestCustomers: seq<CustomerBody> := [
    CustomerBody("Test Kunde 1", "test1@example.com", Some(25), "Teststraße 1, Musterstadt", "123456789"),
    CustomerBody("Test Kunde 2", "test2@example.com", Some(30), "Teststraße 2, Musterstadt", "987654321"),
    CustomerBody("Test Kunde 3", "test3@example.com", Some(35), "Teststraße 3, Musterstadt", "555555555"),
    CustomerBody("Test Kunde 4", "test4@example.com", Some(40), "Teststraße 4, Musterstadt", "444444444"),
    CustomerBody("Test Kunde 5", "test5@example.com", Some(45), "Teststraße 5, Musterstadt", "333333333")
  ]

  /** The seeded table: test customer i under the id String(i + 1). */
  function SeedRows(now: string): (rows: seq<Customer>)
    ensures |rows| == |TestCustomers|
    ensures forall i :: 0 <= i < |rows| ==> rows[i] == NewCustomer(NatToString(i + 1), TestCustomers[i], now)
  {
    seq(|TestCustomers|, i requires 0 <= i < |TestCustomers| =>
      NewCustomer(NatToString(i + 1), TestCustomers[i], now))
  }

  /** After the seed the table holds exactly the ids "1" to "5", once each. */
  lemma SeedIds(now: string)
    ensures Ids(SeedRows(now)) == ["1", "2", "3", "4", "5"]
    ensures UniqueIds(SeedRows(now))
  {
    var rows := SeedRows(now);
    assert NatToString(1) == "1" && NatToString(2) == "2" && NatToString(3) == "3";
    assert NatToString(4) == "4" && NatToString(5) == "5";
    assert Ids(rows) == ["1", "2", "3", "4", "5"];
  }

  // ---------------------------------------------------------------------
  // The table

  class CustomerTable {
    var rows: seq<Customer>

    ghost predicate Valid()
      reads this
    {
      UniqueIds(rows)
    }

    constructor ()
      ensures Valid() && rows == []
    {
      rows := [];
    }

    /** GET /customers. */
    method Get(q: CustomerQuery) returns (res: Response<seq<Customer>>)
      ensures res == Success(200, Select(rows, q))
    {
      res := Success(200, Select(rows, q));
    }

    /** POST /customers: inserts the body verbatim under the next id. */
    method Post(body: CustomerBody, now: string) returns (res: Response<Customer>)
      requires Valid()
      modifies this
      ensures Valid()
      ensures rows == old(rows) + [NewCustomer(NextId(Ids(old(rows))), body, now)]
      ensures res == Success(201, rows[|rows| - 1])
      ensures rows[|rows| - 1].id !in Ids(old(rows))
    {
      rows := Insert(rows, body, now);
      res := Success(201, rows[|rows| - 1]);
    }

    /** PUT /customers/:idOrName: merges the body into the first customer the
        lookup matches, writing at that customer's id. */
    method Put(key: string, body: CustomerBody, now: string) returns (res: Response<Customer>)
      requires Valid()
      modifies this
      ensures Valid()
      ensures FindByIdOrName(old(rows), key).None? ==>
                rows == old(rows) && res == Failure(404, MsgNotFound)
      ensures FindByIdOrName(old(rows), key).Some? ==>
                var k := FindByIdOrName(old(rows), key).value;
                && rows == old(rows)[k := Merge(old(rows)[k], body, now)]
                && res == Success(200, rows[k])
      ensures Ids(rows) == Ids(old(rows))
    {
      match FindByIdOrName(rows, key) {
        case None =>
          res := Failure(404, MsgNotFound);
        case Some(k) =>
          // UPDATE ... WHERE id = customer.id touches only row k: ids are unique
          var target := rows[k].id;
          assert FindById(rows, target) == Some(k);
          rows := rows[k := Merge(rows[k], body, now)];
          res := Success(200, rows[k]);
      }
    }

    /** DELETE /customers/:id: removes the customer and replies with the row
        as it was before the deletion. */
    method Delete(id: string) returns (res: Response<Customer>)
      requires Valid()
      modifies this
      ensures Valid()
      ensures FindById(old(rows), id).None? ==>
                rows == old(rows) && res == Failure(404, MsgNotFound)
      ensures FindById(old(rows), id).Some? ==>
                var k := FindById(old(rows), id).value;
                && rows == old(rows)[..k] + old(rows)[k + 1..]
                && res == Success(200, old(rows)[k])
      ensures id !in Ids(rows)
    {
      match FindById(rows, id) {
        case None =>
          res := Failure(404, MsgNotFound);
        case Some(k) =>
          var snapshot := rows[k];
          RemoveUnique(rows, k);
          RemoveKeepsUnique(rows, k);
          rows := Filter(rows, IdIsNot(id));
          res := Success(200, snapshot);
      }
    }

    /** POST /customers/seed: empties the table and inserts the five test
        customers one by one. */
    method Seed(now: string) returns (res: Response<seq<Customer>>)
      modifies this
      ensures Valid()
      ensures rows == SeedRows(now)
      ensures Ids(rows) == ["1", "2", "3", "4", "5"]
      ensures res == Success(201, rows)
    {
      rows := [];
      for i := 0 to |TestCustomers|
        invariant rows == SeedRows(now)[..i]
      {
        rows := rows + [NewCustomer(NatToString(i + 1), TestCustomers[i], now)];
      }
      SeedIds(now);
      res := Success(201, rows);
    }
  }

  // ---------------------------------------------------------------------
  // Deleting a customer and the offers sweep

  /** Once a customer is deleted, the next offers sweep leaves no offer that
      refers to that customer, and keeps every offer that refers to a
      remaining one. */
  lemma DeleteThenSweep(customers: seq<Customer>, k: nat, offers: seq<Offers.Offer>)
    requires UniqueIds(customers) && k < |customers|
    ensures var remaining := Ids(customers[..k] + customers[k + 1..]);
            var swept := Filter(offers, Offers.HasCustomer(remaining));
            && (forall o :: o in swept ==> o.customerId != customers[k].id)
            && (forall o :: o in offers && o.customerId in remaining ==> o in swept)
  {
    RemoveKeepsUnique(customers, k);
    Offers.SweepSound(offers, Ids(customers[..k] + customers[k + 1..]));
  }
}
