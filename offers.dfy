/** The SQLite-backed offers routes (backend/routes/offers.js). The `offers`
    table is a sequence of rows held by `OfferTable`; each route handler is a
    method that returns the reply and updates the rows. The clock, the
    random draws of the seed route and the ids of the customers table are
    parameters. */
module Offers {
  import opened Common

  const ValidStatuses: seq<string> := ["Draft", "In Progress", "Active", "On Ice"]

  const MsgNotFound: string := "Offer not found"
  const MsgBadId: string := "Invalid ID format. It must be a number."
  const MsgUpdated: string := "Offer successfully updated"
  const MsgDeleted: string := "Offer successfully deleted"
  const MsgStatusUpdated: string := "Offer status successfully updated"

  /** The 400 message for an unknown status names every allowed value. */
  function MsgBadStatus(): (m: string)
    ensures forall k :: 0 <= k < |ValidStatuses| ==> Contains(m, ValidStatuses[k])
  {
    var list := JoinWith(ValidStatuses, ", ");
    var m := "Invalid status. Allowed values: " + list;
    forall k | 0 <= k < |ValidStatuses|
      ensures Contains(m, ValidStatuses[k])
    {
      JoinContainsParts(ValidStatuses, ", ", k);
      var i :| 0 <= i <= |list| && OccursAt(list, ValidStatuses[k], i);
      var off := |"Invalid status. Allowed values: "|;
      assert m[off + i..off + i + |ValidStatuses[k]|] == list[i..i + |ValidStatuses[k]|];
      assert OccursAt(m, ValidStatuses[k], off + i);
    }
    m
  }

  /** A row of the `offers` table. A NULL text column is "". */
  datatype Offer = Offer(
    id: string,
    name: string,
    description: string,
    price: Option<int>,
    currency: string,
    customerId: string,
    status: string,
    createdAt: string,
    updatedAt: string)

  /** The fields a POST or PUT body carries; "" stands for an absent field. */
  datatype OfferBody = OfferBody(
    name: string,
    description: string,
    price: Option<int>,
    currency: string,
    customerId: string,
    status: string)

  /** The reply of PUT, DELETE and PATCH: a message and the offer concerned. */
  datatype Ack = Ack(message: string, offer: Offer)

  /** The GET query parameters; "" stands for an absent parameter. */
  datatype OfferQuery = OfferQuery(name: string, price: string, status: string)

  function Ids(rows: seq<Offer>): (ids: seq<string>)
    ensures |ids| == |rows|
    ensures forall i :: 0 <= i < |rows| ==> ids[i] == rows[i].id
  {
    seq(|rows|, i requires 0 <= i < |rows| => rows[i].id)
  }

  /** `id` is the table's primary key. */
  ghost predicate UniqueIds(rows: seq<Offer>)
  {
    forall i, j :: 0 <= i < j < |rows| ==> rows[i].id != rows[j].id
  }

  /** Any selection of rows keeps the ids unique. */
  lemma {:induction false} FilterKeepsUnique(rows: seq<Offer>, p: Offer -> bool)
    requires UniqueIds(rows)
    ensures UniqueIds(Filter(rows, p))
    decreases |rows|
  {
    if rows != [] {
      var rest := Filter(rows[1..], p);
      FilterKeepsUnique(rows[1..], p);
      FilterMembers(rows[1..], p);
      assert forall x :: x in rest ==> x in rows[1..];
      forall j | 0 <= j < |rows| - 1
        ensures rows[1..][j].id != rows[0].id
      {
        assert rows[j + 1] == rows[1..][j];
      }
      if p(rows[0]) {
        var r := [rows[0]] + rest;
        forall i, j | 0 <= i < j < |r|
          ensures r[i].id != r[j].id
        {
          if i == 0 {
            assert r[j] in rows[1..];
          } else {
            assert r[i] == rest[i - 1] && r[j] == rest[j - 1];
          }
        }
      }
    }
  }

  /** The row a single-row `SELECT ... WHERE id = ?` finds. */
  function HasId(id: string): Offer -> bool
  {
    (o: Offer) => o.id == id
  }

  function IdIsNot(id: string): Offer -> bool
  {
    (o: Offer) => o.id != id
  }

  function FindById(rows: seq<Offer>, id: string): (r: Option<nat>)
    ensures r.Some? ==> r.value < |rows| && rows[r.value].id == id
    ensures r.None? <==> id !in Ids(rows)
  {
    var r := FirstIndex(rows, HasId(id));
    assert r.Some? ==> rows[r.value].id == id;
    r
  }

  /** `DELETE FROM offers WHERE id = ?` on a table with unique ids removes
      exactly the one row with that id. */
  lemma RemoveUnique(rows: seq<Offer>, k: nat)
    requires UniqueIds(rows) && k < |rows|
    ensures Filter(rows, IdIsNot(rows[k].id)) == rows[..k] + rows[k + 1..]
  {
    FilterRemovesOne(rows, k, IdIsNot(rows[k].id));
  }

  // ---------------------------------------------------------------------
  // GET /offers

  /** The WHERE clause GET builds: every filter that is given must hold. The
      name filter is a case-insensitive substring match, the price filter a
      substring match on the price's decimal text, the status filter an
      exact match. */
  predicate Matches(o: Offer, q: OfferQuery)
  {
    && (Truthy(q.name) ==> Contains(ToLower(o.name), ToLower(q.name)))
    && (Truthy(q.price) ==> o.price.Some? && Contains(IntToString(o.price.value), q.price))
    && (Truthy(q.status) ==> o.status == q.status)
  }

  function MatchesQuery(q: OfferQuery): Offer -> bool
  {
    (o: Offer) => Matches(o, q)
  }

  /** GET /offers: the offers satisfying all given filters, in table order. */
  function Select(rows: seq<Offer>, q: OfferQuery): (r: seq<Offer>)
    ensures forall o :: o in r <==> o in rows && Matches(o, q)
    ensures q == OfferQuery("", "", "") ==> r == rows
  {
    FilterMembers(rows, MatchesQuery(q));
    if q == OfferQuery("", "", "") then
      FilterAll(rows, MatchesQuery(q));
      Filter(rows, MatchesQuery(q))
    else
      Filter(rows, MatchesQuery(q))
  }

  // ---------------------------------------------------------------------
  // POST /offers and the id rule

  /** A new row: the body's fields verbatim, both timestamps `now`. */
  function NewOffer(id: string, b: OfferBody, now: string): Offer
  {
    Offer(id, b.name, b.description, b.price, b.currency, b.customerId, b.status, now, now)
  }

  /** The table after one INSERT of `b` under the next free id: the old
      rows, then one row with the body's fields and both timestamps `now`. */
  function Insert(rows: seq<Offer>, b: OfferBody, now: string): (r: seq<Offer>)
    ensures |r| == |rows| + 1 && r[..|rows|] == rows
    ensures r[|rows|] == NewOffer(r[|rows|].id, b, now)
  {
    rows + [NewOffer(NextId(Ids(rows)), b, now)]
  }

  /** The id of the inserted row is one more than the largest id in use
      when read as a number, so it is not in use, and ids stay unique. */
  lemma InsertFreshId(rows: seq<Offer>, b: OfferBody, now: string)
    ensures var r := Insert(rows, b, now);
            r[|rows|].id !in Ids(rows) && CastInt(r[|rows|].id) == MaxId(Ids(rows)) + 1
    ensures UniqueIds(rows) ==> UniqueIds(Insert(rows, b, now))
  {
    assert forall i :: 0 <= i < |rows| ==> rows[i].id in Ids(rows);
  }

  // ---------------------------------------------------------------------
  // PUT /offers/:id

  /** The PUT merge: each field takes the body's value when it is truthy and
      keeps the stored one otherwise; `updatedAt` becomes `now`. */
  function Merge(o: Offer, b: OfferBody, now: string): (r: Offer)
    ensures r.id == o.id && r.createdAt == o.createdAt && r.updatedAt == now
    ensures r.name == (if Truthy(b.name) then b.name else o.name)
    ensures r.description == (if Truthy(b.description) then b.description else o.description)
    ensures r.price == (if TruthyNum(b.price) then b.price else o.price)
    ensures r.currency == (if Truthy(b.currency) then b.currency else o.currency)
    ensures r.customerId == (if Truthy(b.customerId) then b.customerId else o.customerId)
    ensures r.status == (if Truthy(b.status) then b.status else o.status)
  {
    o.(name := Or(b.name, o.name),
       description := Or(b.description, o.description),
       price := OrNum(b.price, o.price),
       currency := Or(b.currency, o.currency),
       customerId := Or(b.customerId, o.customerId),
       status := Or(b.status, o.status),
       updatedAt := now)
  }

  /** A body whose fields are all falsy only refreshes `updatedAt`. */
  lemma MergeEmpty(o: Offer, now: string, price: Option<int>)
    requires !TruthyNum(price)
    ensures Merge(o, OfferBody("", "", price, "", "", ""), now) == o.(updatedAt := now)
  {
  }

  /** The merge never touches `id` or `createdAt`, and applying the same body
      twice is the same as applying it once. */
  lemma MergeStable(o: Offer, b: OfferBody, t1: string, t2: string)
    ensures Merge(o, b, t1).id == o.id && Merge(o, b, t1).createdAt == o.createdAt
    ensures Merge(Merge(o, b, t1), b, t2) == Merge(o, b, t2)
  {
  }

  // ---------------------------------------------------------------------
  // The onRequest sweep

  function HasCustomer(customerIds: seq<string>): Offer -> bool
  {
    (o: Offer) => o.customerId in customerIds
  }

  /** After the sweep every offer names an existing customer, every offer that
      did is still there, and the rows keep their relative order. */
  lemma SweepSound(rows: seq<Offer>, customerIds: seq<string>)
    ensures forall o :: o in Filter(rows, HasCustomer(customerIds)) ==> o.customerId in customerIds
    ensures forall o :: o in rows && o.customerId in customerIds
                        ==> o in Filter(rows, HasCustomer(customerIds))
    ensures (forall o :: o in rows ==> o.customerId in customerIds)
            ==> Filter(rows, HasCustomer(customerIds)) == rows
  {
    var p := HasCustomer(customerIds);
    FilterMembers(rows, p);
    if forall o :: o in rows ==> o.customerId in customerIds {
      assert forall i :: 0 <= i < |rows| ==> p(rows[i]);
      FilterAll(rows, p);
    }
  }

  // ---------------------------------------------------------------------
  // POST /offers/seed

  /** The three random draws one seed offer takes: `floor(random * 901)`,
      `floor(random * 4)` and `floor(random * 5)`. */
  datatype SeedDraw = SeedDraw(price: nat, status: nat, customer: nat)

  predicate DrawInRange(d: SeedDraw)
  {
    d.price <= 900 && d.status < |ValidStatuses| && d.customer < 5
  }

  /** Test offer number `i`. */
  function SeedOffer(i: nat, d: SeedDraw, now: string): (o: Offer)
    requires DrawInRange(d)
    ensures o.id == NatToString(i) && CastInt(o.id) == i
    ensures o.price.Some? && 100 <= o.price.value <= 1000
    ensures o.status in ValidStatuses
    ensures IsDecimal(o.customerId) && 1 <= CastInt(o.customerId) <= 5
    ensures o.createdAt == o.updatedAt == now
  {
    NatToStringValue(i);
    NatToStringValue(d.customer + 1);
    Offer(NatToString(i), "Test Angebot " + NatToString(i),
          "Beschreibung für Angebot " + NatToString(i) + ".",
          Some(d.price + 100), "EUR", NatToString(d.customer + 1),
          ValidStatuses[d.status], now, now)
  }

  /** The seed offers, numbered from 1, one per draw. */
  function SeedRows(draws: seq<SeedDraw>, now: string): (rows: seq<Offer>)
    requires forall k :: 0 <= k < |draws| ==> DrawInRange(draws[k])
    ensures |rows| == |draws|
    ensures forall k :: 0 <= k < |rows| ==> rows[k] == SeedOffer(k + 1, draws[k], now)
  {
    seq(|draws|, k requires 0 <= k < |draws| => SeedOffer(k + 1, draws[k], now))
  }

  /** The loop of the seed route that builds the ten test offers. */
  method BuildTestOffers(draws: seq<SeedDraw>, now: string) returns (testOffers: seq<Offer>)
    requires |draws| == 10 && forall k :: 0 <= k < 10 ==> DrawInRange(draws[k])
    ensures testOffers == SeedRows(draws, now)
  {
    testOffers := [];
    var i := 1;
    while i <= 10
      invariant 1 <= i <= 11
      invariant testOffers == SeedRows(draws, now)[..i - 1]
    {
      testOffers := testOffers + [SeedOffer(i, draws[i - 1], now)];
      i := i + 1;
    }
  }

  /** The seed offers have distinct ids "1", "2", ... */
  lemma SeedIdsUnique(draws: seq<SeedDraw>, now: string)
    requires forall k :: 0 <= k < |draws| ==> DrawInRange(draws[k])
    ensures UniqueIds(SeedRows(draws, now))
  {
    var rows := SeedRows(draws, now);
    forall i, j | 0 <= i < j < |rows|
      ensures rows[i].id != rows[j].id
    {
      assert CastInt(rows[i].id) == i + 1 && CastInt(rows[j].id) == j + 1;
    }
  }

  // ---------------------------------------------------------------------
  // POST /offers/sample

  /** The legacy offer format the sample route converts. */
  datatype XOffer = XOffer(
    customerId: int,
    price: int,
    currency: string,
    state: string,
    name: string,
    hints: seq<string>)

  datatype SampleOffer = SampleOffer(
    createdOn: string,
    createdBy: string,
    softwareVersion: string,
    offer: XOffer)

  const Samples: seq<SampleOffer> := [
    SampleOffer("2024-10-19T00:00:00Z", "John Doe", "1.0.0",
      XOffer(1, 142000, "USD", "Active", "Offer 1", [])),
    SampleOffer("2024-10-20T00:00:00Z", "Luise Fröhlich", "1.2.0",
      XOffer(3, 56000, "EUR", "On-Ice", "Offer 2", ["Toller Kunde, den wir gewinnen sollten!"]))
  ]

  /** The conversion of one legacy offer into an offer body. */
  function Convert(x: XOffer): (b: OfferBody)
    ensures x.hints == [] ==> b.description == ""
    ensures x.hints != [] ==> b.description == JoinWith(x.hints, " ")
    ensures forall k :: 0 <= k < |x.hints| ==> Contains(b.description, x.hints[k])
    ensures b.status == (if x.state == "On-Ice" then "On Ice" else x.state)
    ensures x.customerId >= 0 ==> IsDecimal(b.customerId) && CastInt(b.customerId) == x.customerId
    ensures b.name == x.name && b.price == Some(x.price) && b.currency == x.currency
  {
    var description := if |x.hints| > 0 then JoinWith(x.hints, " ") else "";
    forall k | 0 <= k < |x.hints|
      ensures Contains(description, x.hints[k])
    {
      JoinContainsParts(x.hints, " ", k);
    }
    IntToStringValue(x.customerId);
    OfferBody(x.name, description, Some(x.price), x.currency, IntToString(x.customerId),
              if x.state == "On-Ice" then "On Ice" else x.state)
  }

  /** The two built-in samples convert to "Active" with no description and
      to "On Ice" with the hint as description, for customers "1" and "3". */
  lemma SamplesConverted()
    ensures Convert(Samples[0].offer).status == "Active"
    ensures Convert(Samples[0].offer).description == ""
    ensures Convert(Samples[0].offer).customerId == "1"
    ensures Convert(Samples[1].offer).status == "On Ice"
    ensures Convert(Samples[1].offer).description == "Toller Kunde, den wir gewinnen sollten!"
    ensures Convert(Samples[1].offer).customerId == "3"
  {
  }

  function Bodies(samples: seq<SampleOffer>): (bs: seq<OfferBody>)
    ensures |bs| == |samples|
    ensures forall i :: 0 <= i < |samples| ==> bs[i] == Convert(samples[i].offer)
  {
    seq(|samples|, i requires 0 <= i < |samples| => Convert(samples[i].offer))
  }

  /** The table after inserting `bodies` one by one, the i-th at `times[i]`,
      each under the next id computed from the table as it then is. */
  function InsertAll(rows: seq<Offer>, bodies: seq<OfferBody>, times: seq<string>): seq<Offer>
    requires |bodies| == |times|
    decreases |bodies|
  {
    if bodies == [] then rows
    else Insert(InsertAll(rows, bodies[..|bodies| - 1], times[..|times| - 1]),
                bodies[|bodies| - 1], times[|times| - 1])
  }

  /** Inserting one more body extends the run of inserts by one step. */
  lemma InsertAllStep(rows: seq<Offer>, bodies: seq<OfferBody>, times: seq<string>, i: nat)
    requires |bodies| == |times| && i < |bodies|
    ensures InsertAll(rows, bodies[..i + 1], times[..i + 1])
            == Insert(InsertAll(rows, bodies[..i], times[..i]), bodies[i], times[i])
  {
    assert bodies[..i + 1][..i] == bodies[..i] && times[..i + 1][..i] == times[..i];
  }

  /** Inserting several bodies keeps the old rows as a prefix and adds one
      row per body. */
  lemma {:induction false} InsertAllShape(rows: seq<Offer>, bodies: seq<OfferBody>, times: seq<string>)
    requires |bodies| == |times|
    ensures |InsertAll(rows, bodies, times)| == |rows| + |bodies|
    ensures InsertAll(rows, bodies, times)[..|rows|] == rows
    decreases |bodies|
  {
    if bodies != [] {
      var n := |bodies| - 1;
      InsertAllShape(rows, bodies[..n], times[..n]);
    }
  }

  /** The i-th inserted row carries the i-th body's fields and the i-th
      timestamp as both `createdAt` and `updatedAt`. */
  lemma {:induction false} InsertAllRow(rows: seq<Offer>, bodies: seq<OfferBody>, times: seq<string>, i: nat)
    requires |bodies| == |times| && i < |bodies|
    ensures |InsertAll(rows, bodies, times)| == |rows| + |bodies|
    ensures var o := InsertAll(rows, bodies, times)[|rows| + i];
            o == NewOffer(o.id, bodies[i], times[i])
    decreases |bodies|
  {
    var n := |bodies| - 1;
    if i < n {
      var bs, ts := bodies[..n], times[..n];
      var prev := InsertAll(rows, bs, ts);
      InsertAllRow(rows, bs, ts, i);
      InsertKeeps(prev, bodies[n], times[n], |rows| + i);
    } else {
      InsertAllLast(rows, bodies, times);
    }
  }

  /** The last insert appends its row right after the earlier ones. */
  lemma InsertAllLast(rows: seq<Offer>, bodies: seq<OfferBody>, times: seq<string>)
    requires |bodies| == |times| && bodies != []
    ensures |InsertAll(rows, bodies, times)| == |rows| + |bodies|
    ensures var n := |bodies| - 1;
            var o := InsertAll(rows, bodies, times)[|rows| + n];
            o == NewOffer(o.id, bodies[n], times[n])
  {
    var n := |bodies| - 1;
    InsertAllShape(rows, bodies[..n], times[..n]);
  }

  /** An insert leaves every existing row where it was. */
  lemma InsertKeeps(rows: seq<Offer>, b: OfferBody, now: string, j: nat)
    requires j < |rows|
    ensures Insert(rows, b, now)[j] == rows[j]
  {
    var r := Insert(rows, b, now);
    assert r[..|rows|][j] == rows[j];
  }

  /** Every id drawn during the inserts is fresh at that moment, so the ids
      stay unique. */
  lemma {:induction false} InsertAllUnique(rows: seq<Offer>, bodies: seq<OfferBody>, times: seq<string>)
    requires |bodies| == |times| && UniqueIds(rows)
    ensures UniqueIds(InsertAll(rows, bodies, times))
    decreases |bodies|
  {
    if bodies != [] {
      var n := |bodies| - 1;
      InsertAllUnique(rows, bodies[..n], times[..n]);
      InsertFreshId(InsertAll(rows, bodies[..n], times[..n]), bodies[n], times[n]);
    }
  }

  // ---------------------------------------------------------------------
  // The table

  class OfferTable {
    var rows: seq<Offer>

    ghost predicate Valid()
      reads this
    {
      UniqueIds(rows)
    }

    constructor ()
      ensures Valid() && rows == []
    {
      rows := [];
    }

    /** POST /offers: inserts the body verbatim under the next id; neither the
        customer nor the status is checked. */
    method Post(body: OfferBody, now: string) returns (res: Response<Offer>)
      requires Valid()
      modifies this
      ensures Valid()
      ensures rows == old(rows) + [NewOffer(NextId(Ids(old(rows))), body, now)]
      ensures res == Success(201, rows[|rows| - 1])
      ensures rows[|rows| - 1].id !in Ids(old(rows))
    {
      InsertFreshId(rows, body, now);
      rows := Insert(rows, body, now);
      res := Success(201, rows[|rows| - 1]);
    }

    /** PUT /offers/:id: merges the body into the offer with that id. */
    method Put(id: string, body: OfferBody, now: string) returns (res: Response<Ack>)
      requires Valid()
      modifies this
      ensures Valid()
      ensures FindById(old(rows), id).None? ==>
                rows == old(rows) && res == Failure(404, MsgNotFound)
      ensures FindById(old(rows), id).Some? ==>
                var k := FindById(old(rows), id).value;
                && rows == old(rows)[k := Merge(old(rows)[k], body, now)]
                && res == Success(200, Ack(MsgUpdated, rows[k]))
    {
      match FindById(rows, id) {
        case None =>
          res := Failure(404, MsgNotFound);
        case Some(k) =>
          rows := rows[k := Merge(rows[k], body, now)];
          res := Success(200, Ack(MsgUpdated, rows[k]));
      }
    }

    /** DELETE /offers/:id: removes the offer and replies with the row as it
        was before the deletion. */
    method Delete(id: string) returns (res: Response<Ack>)
      requires Valid()
      modifies this
      ensures Valid()
      ensures FindById(old(rows), id).None? ==>
                rows == old(rows) && res == Failure(404, MsgNotFound)
      ensures FindById(old(rows), id).Some? ==>
                var k := FindById(old(rows), id).value;
                && rows == old(rows)[..k] + old(rows)[k + 1..]
                && res == Success(200, Ack(MsgDeleted, old(rows)[k]))
      ensures id !in Ids(rows)
    {
      match FindById(rows, id) {
        case None =>
          res := Failure(404, MsgNotFound);
        case Some(k) =>
          var snapshot := rows[k];
          RemoveUnique(rows, k);
          FilterKeepsUnique(rows, IdIsNot(id));
          rows := Filter(rows, IdIsNot(id));
          res := Success(200, Ack(MsgDeleted, snapshot));
          assert forall o :: o in rows ==> o.id != id;
      }
    }

    /** PATCH /offers/:id/status: the id format is checked first, then the
        status, then the offer's existence; only `status` and `updatedAt`
        change. */
    method PatchStatus(id: string, newStatus: string, now: string) returns (res: Response<Ack>)
      requires Valid()
      modifies this
      ensures Valid()
      ensures !IsDecimal(id) ==> rows == old(rows) && res == Failure(400, MsgBadId)
      ensures IsDecimal(id) && newStatus !in ValidStatuses ==>
                rows == old(rows) && res == Failure(400, MsgBadStatus())
      ensures IsDecimal(id) && newStatus in ValidStatuses && FindById(old(rows), id).None? ==>
                rows == old(rows) && res == Failure(404, MsgNotFound)
      ensures IsDecimal(id) && newStatus in ValidStatuses && FindById(old(rows), id).Some? ==>
                var k := FindById(old(rows), id).value;
                && rows == old(rows)[k := old(rows)[k].(status := newStatus, updatedAt := now)]
                && res == Success(200, Ack(MsgStatusUpdated, rows[k]))
    {
      if !IsDecimal(id) {
        res := Failure(400, MsgBadId);
        return;
      }
      if newStatus !in ValidStatuses {
        res := Failure(400, MsgBadStatus());
        return;
      }
      match FindById(rows, id) {
        case None =>
          res := Failure(404, MsgNotFound);
        case Some(k) =>
          rows := rows[k := rows[k].(status := newStatus, updatedAt := now)];
          res := Success(200, Ack(MsgStatusUpdated, rows[k]));
      }
    }

    /** The onRequest hook: deletes every offer whose customerId is not the id
        of a customer. A failing DELETE is only logged, so the table stays as
        it was and the request goes on. */
    method Sweep(customerIds: seq<string>, failed: bool)
      requires Valid()
      modifies this
      ensures Valid()
      ensures failed ==> rows == old(rows)
      ensures !failed ==> rows == Filter(old(rows), HasCustomer(customerIds))
      ensures forall o :: o in rows && !failed ==> o.customerId in customerIds
    {
      if !failed {
        FilterKeepsUnique(rows, HasCustomer(customerIds));
        SweepSound(rows, customerIds);
        rows := Filter(rows, HasCustomer(customerIds));
      }
    }

    /** POST /offers/seed: builds ten test offers, empties the table and
        inserts them. */
    method Seed(draws: seq<SeedDraw>, now: string) returns (res: Response<seq<Offer>>)
      requires |draws| == 10 && forall k :: 0 <= k < 10 ==> DrawInRange(draws[k])
      modifies this
      ensures Valid()
      ensures rows == SeedRows(draws, now)
      ensures res == Success(201, rows)
    {
      var testOffers := BuildTestOffers(draws, now);
      rows := [];
      for k := 0 to |testOffers|
        invariant rows == testOffers[..k]
      {
        rows := rows + [testOffers[k]];
      }
      assert rows == testOffers;
      SeedIdsUnique(draws, now);
      res := Success(201, rows);
    }

    /** POST /offers/sample: converts each sample and inserts it under the
        next id, recomputed before every insert. */
    method AddSamples(samples: seq<SampleOffer>, times: seq<string>) returns (res: Response<seq<Offer>>)
      requires Valid()
      requires |times| == |samples|
      modifies this
      ensures Valid()
      ensures rows == InsertAll(old(rows), Bodies(samples), times)
      ensures res == Success(201, rows)
    {
      var bodies := Bodies(samples);
      for i := 0 to |samples|
        invariant Valid()
        invariant rows == InsertAll(old(rows), bodies[..i], times[..i])
      {
        InsertAllStep(old(rows), bodies, times, i);
        InsertFreshId(rows, bodies[i], times[i]);
        rows := Insert(rows, bodies[i], times[i]);
      }
      assert bodies[..|samples|] == bodies && times[..|samples|] == times;
      res := Success(201, rows);
    }
  }
}
