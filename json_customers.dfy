/** The JSON-file customers routes of the older backend
    (Project/routes/customers.js). The whole store is one file holding a JSON
    array of customer objects; each route reads it, changes the array and
    writes it back. A customer object is a map from field names to string
    values; a field that is absent is a missing key. */
module JsonCustomers {
  import opened Common

  type Record = map<string, string>

  const MsgReadData: string := "Error reading customers data"
  const MsgSave: string := "Error saving customer data"
  const MsgUpdate: string := "Error updating customer"
  const MsgDelete: string := "Error deleting customer"
  const MsgNotFound: string := "Customer not found"

  /** What the customers file holds: nothing at all, text that cannot be
      read or parsed, a parsed value that is not an array, or an array. */
  datatype StoredFile =
    | Missing
    | Corrupt
    | NonArray(value: string)
    | Records(records: seq<Record>)

  /** What GET sends back: the parsed content, whatever its shape. */
  datatype Json = JArray(records: seq<Record>) | JOther(value: string)

  /** `readCustomersFile`: a missing file is an empty list; anything that is
      not an array is an error (`None`). */
  function ReadCustomersFile(f: StoredFile): (r: Option<seq<Record>>)
    ensures f.Missing? ==> r == Some([])
    ensures f.Records? ==> r == Some(f.records)
    ensures (f.Corrupt? || f.NonArray?) <==> r.None?
  {
    match f
    case Missing => Some([])
    case Records(rs) => Some(rs)
    case _ => None
  }

  // ---------------------------------------------------------------------
  // POST /customers

  /** The new customer: an id from the current length, then every field of
      the body (a body `id` replaces the computed one), then both timestamps,
      which always come from the server. The clock is read once for each
      timestamp, so `created` and `updated` are two readings. */
  function NewCustomer(count: nat, body: Record, created: string, updated: string): (c: Record)
    ensures forall k :: k in c <==> k in body || k in {"id", "createdAt", "updatedAt"}
    ensures "id" in c && "createdAt" in c && "updatedAt" in c
    ensures "id" in body ==> c["id"] == body["id"]
    ensures "id" !in body ==> c["id"] == NatToString(count + 1)
    ensures c["createdAt"] == created && c["updatedAt"] == updated
    ensures forall k :: k in body && k != "createdAt" && k != "updatedAt" ==> k in c && c[k] == body[k]
  {
    map["id" := NatToString(count + 1)] + body + map["createdAt" := created, "updatedAt" := updated]
  }

  // ---------------------------------------------------------------------
  // PUT /customers/:idOrName

  /** Where the `findIndex` scan of PUT ends: at an index, past the end, or in
      a TypeError when a customer whose id does not match has no name. */
  datatype Lookup = Found(index: nat) | NotFound | Crashed

  /** The scan's test for one customer; `None` when it throws. */
  function Test(c: Record, key: string): Option<bool>
  {
    if "id" in c && c["id"] == key then Some(true)
    else if "name" !in c then None
    else Some(ToLower(c["name"]) == ToLower(key))
  }

  /** `customers.findIndex(...)` from index `from` on. */
  function LookupFrom(cs: seq<Record>, key: string, from: nat): (r: Lookup)
    requires from <= |cs|
    ensures r.Found? ==> from <= r.index < |cs| && Test(cs[r.index], key) == Some(true)
                         && forall j :: from <= j < r.index ==> Test(cs[j], key) == Some(false)
    ensures r.NotFound? <==> forall j :: from <= j < |cs| ==> Test(cs[j], key) == Some(false)
    decreases |cs| - from
  {
    if from == |cs| then NotFound
    else match Test(cs[from], key)
      case None => Crashed
      case Some(true) => Found(from)
      case Some(false) => LookupFrom(cs, key, from + 1)
  }

  /** The scan stops at the first customer whose test throws or succeeds. */
  lemma LookupCrash(cs: seq<Record>, key: string, k: nat)
    requires k < |cs| && Test(cs[k], key).None?
    requires forall j :: 0 <= j < k ==> Test(cs[j], key) == Some(false)
    ensures LookupFrom(cs, key, 0) == Crashed
  {
    LookupSkip(cs, key, 0, k);
  }

  /** A match ahead of every customer whose test throws is found: the scan
      returns its index. */
  lemma LookupFound(cs: seq<Record>, key: string, k: nat)
    requires k < |cs| && Test(cs[k], key) == Some(true)
    requires forall j :: 0 <= j < k ==> Test(cs[j], key) == Some(false)
    ensures LookupFrom(cs, key, 0) == Found(k)
  {
    LookupSkip(cs, key, 0, k);
  }

  lemma {:induction false} LookupSkip(cs: seq<Record>, key: string, from: nat, k: nat)
    requires from <= k <= |cs|
    requires forall j :: from <= j < k ==> Test(cs[j], key) == Some(false)
    ensures LookupFrom(cs, key, from) == LookupFrom(cs, key, k)
    decreases k - from
  {
    if from < k {
      LookupSkip(cs, key, from + 1, k);
    }
  }

  /** The merge of PUT: `name`, `contact` and `address` take the body's value
      when it is truthy; `updatedAt` becomes `now`. */
  function SetIfTruthy(c: Record, body: Record, k: string): Record
  {
    if k in body && Truthy(body[k]) then c[k := body[k]] else c
  }

  function Merge(c: Record, body: Record, now: string): (r: Record)
    ensures "updatedAt" in r && r["updatedAt"] == now
    ensures forall f :: f in ["name", "contact", "address"] && f in body && Truthy(body[f])
                        ==> f in r && r[f] == body[f]
    ensures forall f :: f in ["name", "contact", "address"] && !(f in body && Truthy(body[f]))
                        ==> (f in r <==> f in c) && (f in c ==> r[f] == c[f])
    ensures forall f :: f !in ["name", "contact", "address", "updatedAt"]
                        ==> (f in r <==> f in c) && (f in c ==> r[f] == c[f])
  {
    SetIfTruthy(SetIfTruthy(SetIfTruthy(c, body, "name"), body, "contact"), body, "address")["updatedAt" := now]
  }

  // ---------------------------------------------------------------------
  // DELETE /customers/:id

  function FindId(cs: seq<Record>, id: string): (r: Option<nat>)
    ensures r.Some? ==> r.value < |cs| && "id" in cs[r.value] && cs[r.value]["id"] == id
                        && forall j :: 0 <= j < r.value ==> !("id" in cs[j] && cs[j]["id"] == id)
    ensures r.None? <==> forall j :: 0 <= j < |cs| ==> !("id" in cs[j] && cs[j]["id"] == id)
  {
    FirstIndex(cs, (c: Record) => "id" in c && c["id"] == id)
  }

  // ---------------------------------------------------------------------
  // The store

  class CustomerStore {
    var file: StoredFile

    constructor (f: StoredFile)
      ensures file == f
    {
      file := f;
    }

    /** GET /customers: the parsed file as it is, even when it is not an
        array; a missing or unparsable file is a 500. */
    method Get() returns (res: Response<Json>)
      ensures file.Missing? || file.Corrupt? ==> res == Failure(500, MsgReadData)
      ensures file.NonArray? ==> res == Success(200, JOther(file.value))
      ensures file.Records? ==> res == Success(200, JArray(file.records))
    {
      match file
      case Missing => res := Failure(500, MsgReadData);
      case Corrupt => res := Failure(500, MsgReadData);
      case NonArray(v) => res := Success(200, JOther(v));
      case Records(rs) => res := Success(200, JArray(rs));
    }

    /** POST /customers: appends one new customer at the end. */
    method Post(body: Record, created: string, updated: string) returns (res: Response<Record>)
      modifies this
      ensures ReadCustomersFile(old(file)).None? ==>
                file == old(file) && res == Failure(500, MsgSave)
      ensures ReadCustomersFile(old(file)).Some? ==>
                var cs := ReadCustomersFile(old(file)).value;
                && file == Records(cs + [NewCustomer(|cs|, body, created, updated)])
                && res == Success(201, NewCustomer(|cs|, body, created, updated))
    {
      match ReadCustomersFile(file) {
        case None =>
          res := Failure(500, MsgSave);
        case Some(cs) =>
          var c := NewCustomer(|cs|, body, created, updated);
          file := Records(cs + [c]);
          res := Success(201, c);
      }
    }

    /** PUT /customers/:idOrName: merges the body into the first customer
        whose id or (lower-cased) name matches. */
    method Put(key: string, body: Record, now: string) returns (res: Response<Record>)
      modifies this
      ensures ReadCustomersFile(old(file)).None? ==>
                file == old(file) && res == Failure(500, MsgUpdate)
      ensures ReadCustomersFile(old(file)).Some? ==>
                var cs := ReadCustomersFile(old(file)).value;
                match LookupFrom(cs, key, 0)
                case Crashed => file == old(file) && res == Failure(500, MsgUpdate)
                case NotFound => file == old(file) && res == Failure(404, MsgNotFound)
                case Found(k) =>
                  && file == Records(cs[k := Merge(cs[k], body, now)])
                  && res == Success(200, Merge(cs[k], body, now))
    {
      match ReadCustomersFile(file) {
        case None =>
          res := Failure(500, MsgUpdate);
        case Some(cs) =>
          var found := FindIndex(cs, key);
          match found {
            case Crashed =>
              res := Failure(500, MsgUpdate);
            case NotFound =>
              res := Failure(404, MsgNotFound);
            case Found(k) =>
              var c := Merge(cs[k], body, now);
              file := Records(cs[k := c]);
              res := Success(200, c);
          }
      }
    }

    /** DELETE /customers/:id: splices out the first customer with that id
        and replies with it. */
    method Delete(id: string) returns (res: Response<Record>)
      modifies this
      ensures ReadCustomersFile(old(file)).None? ==>
                file == old(file) && res == Failure(500, MsgDelete)
      ensures ReadCustomersFile(old(file)).Some? ==>
                var cs := ReadCustomersFile(old(file)).value;
                match FindId(cs, id)
                case None => file == old(file) && res == Failure(404, MsgNotFound)
                case Some(k) =>
                  && file == Records(cs[..k] + cs[k + 1..])
                  && res == Success(200, cs[k])
    {
      match ReadCustomersFile(file) {
        case None =>
          res := Failure(500, MsgDelete);
        case Some(cs) =>
          match FindId(cs, id) {
            case None =>
              res := Failure(404, MsgNotFound);
            case Some(k) =>
              var removed := cs[k];
              file := Records(cs[..k] + cs[k + 1..]);
              res := Success(200, removed);
          }
      }
    }
  }

  /** The `findIndex` scan of PUT, one customer at a time. */
  method FindIndex(cs: seq<Record>, key: string) returns (r: Lookup)
    ensures r == LookupFrom(cs, key, 0)
  {
    var i := 0;
    while i < |cs|
      invariant 0 <= i <= |cs|
      invariant LookupFrom(cs, key, 0) == LookupFrom(cs, key, i)
    {
      var t := Test(cs[i], key);
      if t.None? {
        return Crashed;
      }
      if t.value {
        return Found(i);
      }
      i := i + 1;
    }
    return NotFound;
  }

  /** After a customer is deleted, the next POST can hand out an id that is
      still in use: with customers "1" and "2", deleting "1" and posting a
      body without an id yields a second customer "2". */
  lemma DuplicateIdAfterDelete(created: string, updated: string)
    ensures var cs := [map["id" := "1"], map["id" := "2"]];
            var afterDelete := cs[..0] + cs[1..];
            && FindId(cs, "1") == Some(0)
            && NewCustomer(|afterDelete|, map[], created, updated)["id"] == "2"
            && afterDelete[0]["id"] == "2"
  {
    var cs := [map["id" := "1"], map["id" := "2"]];
    assert FindId(cs, "1").Some? by {
      assert "id" in cs[0] && cs[0]["id"] == "1";
    }
    assert NatToString(2) == "2";
  }
}
