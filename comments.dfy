/** The SQLite-backed comment routes under /offers/:offerId/comments
    (backend/routes/commentsRoutes.js) and the periodic removal of comments
    without an offer. The `comments` table is a sequence of rows held by
    `CommentTable`; the clock is a parameter. */
module Comments {
  import opened Common

  const MsgTextRequired: string := "Comment text is required"
  const MsgNotFound: string := "Comment not found"
  const MsgUpdated: string := "Comment successfully updated"
  const MsgDeleted: string := "Comment successfully deleted"

  /** A row of the `comments` table. A NULL `offerId` is "". */
  datatype Comment = Comment(
    id: string,
    offerId: string,
    text: string,
    createdAt: string,
    updatedAt: string)

  /** The body of a PUT or DELETE reply: a message and the comment. */
  datatype Ack = Ack(message: string, comment: Comment)

  function Ids(rows: seq<Comment>): (ids: seq<string>)
    ensures |ids| == |rows|
    ensures forall i :: 0 <= i < |rows| ==> ids[i] == rows[i].id
  {
    seq(|rows|, i requires 0 <= i < |rows| => rows[i].id)
  }

  /** `id` is the table's primary key. */
  ghost predicate UniqueIds(rows: seq<Comment>)
  {
    forall i, j :: 0 <= i < j < |rows| ==> rows[i].id != rows[j].id
  }

  // ---------------------------------------------------------------------
  // GET /offers/:offerId/comments

  function OnOffer(offerId: string): Comment -> bool
  {
    (c: Comment) => c.offerId == offerId
  }

  /** The comments of one offer, in table order. */
  function ForOffer(rows: seq<Comment>, offerId: string): (r: seq<Comment>)
    ensures forall c :: c in r <==> c in rows && c.offerId == offerId
  {
    FilterMembers(rows, OnOffer(offerId));
    Filter(rows, OnOffer(offerId))
  }

  // ---------------------------------------------------------------------
  // Lookup by (id, offerId)

  /** PUT and DELETE only see a comment under the offer named in the route. */
  predicate IsKey(c: Comment, id: string, offerId: string)
  {
    c.id == id && c.offerId == offerId
  }

  function MatchesKey(id: string, offerId: string): Comment -> bool
  {
    (c: Comment) => IsKey(c, id, offerId)
  }

  function NotKey(id: string, offerId: string): Comment -> bool
  {
    (c: Comment) => !IsKey(c, id, offerId)
  }

  function FindByKey(rows: seq<Comment>, id: string, offerId: string): (r: Option<nat>)
    ensures r.Some? ==> r.value < |rows| && IsKey(rows[r.value], id, offerId)
    ensures r.None? <==> forall c :: c in rows ==> !IsKey(c, id, offerId)
  {
    FirstIndex(rows, MatchesKey(id, offerId))
  }

  /** A comment filed under another offer is invisible to PUT and DELETE on
      this one, even when its id is the one asked for. */
  lemma OtherOfferNotFound(rows: seq<Comment>, id: string, offerId: string)
    requires UniqueIds(rows)
    requires exists k :: 0 <= k < |rows| && rows[k].id == id && rows[k].offerId != offerId
    ensures FindByKey(rows, id, offerId).None?
  {
    var k :| 0 <= k < |rows| && rows[k].id == id && rows[k].offerId != offerId;
    forall c | c in rows
      ensures !IsKey(c, id, offerId)
    {
      var j :| 0 <= j < |rows| && rows[j] == c;
      assert j == k || rows[j].id != id;
    }
  }

  /** `DELETE FROM comments WHERE id = ? AND offerId = ?` on a table with
      unique ids removes exactly the matched row. */
  lemma RemoveKey(rows: seq<Comment>, k: nat)
    requires UniqueIds(rows) && k < |rows|
    ensures Filter(rows, NotKey(rows[k].id, rows[k].offerId)) == rows[..k] + rows[k + 1..]
  {
    FilterRemovesOne(rows, k, NotKey(rows[k].id, rows[k].offerId));
  }

  /** Removing row `k` keeps the ids unique. */
  lemma RemoveKeepsUnique(rows: seq<Comment>, k: nat)
    requires UniqueIds(rows) && k < |rows|
    ensures UniqueIds(rows[..k] + rows[k + 1..])
  {
    var r := rows[..k] + rows[k + 1..];
    forall i, j | 0 <= i < j < |r|
      ensures r[i].id != r[j].id
    {
      assert r[i] == rows[if i < k then i else i + 1];
      assert r[j] == rows[if j < k then j else j + 1];
    }
  }

  // ---------------------------------------------------------------------
  // The periodic cleanup

  /** `offerId IS NULL OR TRIM(offerId) = ''`: SQLite's TRIM removes only
      spaces. */
  predicate Unassigned(c: Comment)
  {
    forall i :: 0 <= i < |c.offerId| ==> c.offerId[i] == ' '
  }

  function Assigned(): Comment -> bool
  {
    (c: Comment) => !Unassigned(c)
  }

  /** The cleanup removes exactly the comments without an offer id, keeps
      every other comment (whether or not its offer still exists) and keeps
      their order. */
  lemma CleanupExact(rows: seq<Comment>)
    ensures forall c :: c in Filter(rows, Assigned()) <==> c in rows && !Unassigned(c)
    ensures (forall c :: c in rows ==> !Unassigned(c)) ==> Filter(rows, Assigned()) == rows
  {
    FilterMembers(rows, Assigned());
    if forall c :: c in rows ==> !Unassigned(c) {
      assert forall i :: 0 <= i < |rows| ==> Assigned()(rows[i]);
      FilterAll(rows, Assigned());
    }
  }

  /** A comment filed under "" or under spaces only is removed; one whose
      offer id has any other character survives. */
  lemma CleanupExamples(now: string)
    ensures Filter([Comment("1", "", "a", now, now)], Assigned()) == []
    ensures Filter([Comment("1", "  ", "a", now, now)], Assigned()) == []
    ensures Filter([Comment("1", " 7", "a", now, now)], Assigned()) == [Comment("1", " 7", "a", now, now)]
  {
    assert !Unassigned(Comment("1", " 7", "a", now, now)) by {
      assert " 7"[1] != ' ';
    }
    assert Filter([Comment("1", " 7", "a", now, now)], Assigned())
        == [Comment("1", " 7", "a", now, now)] + Filter([], Assigned());
  }

  // ---------------------------------------------------------------------
  // The table

  class CommentTable {
    var rows: seq<Comment>

    ghost predicate Valid()
      reads this
    {
      UniqueIds(rows)
    }

    constructor ()
      ensures Valid() && rows == []
    {
      rows := [];
    }

    /** GET /offers/:offerId/comments. */
    method Get(offerId: string) returns (res: Response<seq<Comment>>)
      ensures res == Success(200, ForOffer(rows, offerId))
    {
      res := Success(200, ForOffer(rows, offerId));
    }

    /** POST /offers/:offerId/comments: an empty text is refused before
        anything else; otherwise the comment is stored under the next id and
        the route's offer id. */
    method Post(offerId: string, text: string, now: string) returns (res: Response<Comment>)
      requires Valid()
      modifies this
      ensures Valid()
      ensures !Truthy(text) ==> rows == old(rows) && res == Failure(400, MsgTextRequired)
      ensures Truthy(text) ==>
                && rows == old(rows) + [Comment(NextId(Ids(old(rows))), offerId, text, now, now)]
                && res == Success(201, rows[|rows| - 1])
                && rows[|rows| - 1].id !in Ids(old(rows))
                && CastInt(rows[|rows| - 1].id) == MaxId(Ids(old(rows))) + 1
    {
      if !Truthy(text) {
        res := Failure(400, MsgTextRequired);
        return;
      }
      var id := NextId(Ids(rows));
      assert forall i :: 0 <= i < |rows| ==> rows[i].id in Ids(rows);
      rows := rows + [Comment(id, offerId, text, now, now)];
      res := Success(201, rows[|rows| - 1]);
    }

    /** PUT /offers/:offerId/comments/:commentId: the text check comes before
        the lookup; only `text` and `updatedAt` change. */
    method Put(offerId: string, id: string, text: string, now: string) returns (res: Response<Ack>)
      requires Valid()
      modifies this
      ensures Valid()
      ensures !Truthy(text) ==> rows == old(rows) && res == Failure(400, MsgTextRequired)
      ensures Truthy(text) && FindByKey(old(rows), id, offerId).None? ==>
                rows == old(rows) && res == Failure(404, MsgNotFound)
      ensures Truthy(text) && FindByKey(old(rows), id, offerId).Some? ==>
                var k := FindByKey(old(rows), id, offerId).value;
                && rows == old(rows)[k := old(rows)[k].(text := text, updatedAt := now)]
                && res == Success(200, Ack(MsgUpdated, rows[k]))
    {
      if !Truthy(text) {
        res := Failure(400, MsgTextRequired);
        return;
      }
      match FindByKey(rows, id, offerId) {
        case None =>
          res := Failure(404, MsgNotFound);
        case Some(k) =>
          rows := rows[k := rows[k].(text := text, updatedAt := now)];
          res := Success(200, Ack(MsgUpdated, rows[k]));
      }
    }

    /** DELETE /offers/:offerId/comments/:commentId: removes the matched
        comment and replies with it as it was. */
    method Delete(offerId: string, id: string) returns (res: Response<Ack>)
      requires Valid()
      modifies this
      ensures Valid()
      ensures FindByKey(old(rows), id, offerId).None? ==>
                rows == old(rows) && res == Failure(404, MsgNotFound)
      ensures FindByKey(old(rows), id, offerId).Some? ==>
                var k := FindByKey(old(rows), id, offerId).value;
                && rows == old(rows)[..k] + old(rows)[k + 1..]
                && res == Success(200, Ack(MsgDeleted, old(rows)[k]))
    {
      match FindByKey(rows, id, offerId) {
        case None =>
          res := Failure(404, MsgNotFound);
        case Some(k) =>
          var snapshot := rows[k];
          RemoveKey(rows, k);
          RemoveKeepsUnique(rows, k);
          rows := Filter(rows, NotKey(id, offerId));
          res := Success(200, Ack(MsgDeleted, snapshot));
      }
    }

    /** `removeUnassignedComments`: deletes every comment without an offer
        id; a failing DELETE is only logged and changes nothing. */
    method RemoveUnassigned(failed: bool)
      requires Valid()
      modifies this
      ensures Valid()
      ensures failed ==> rows == old(rows)
      ensures !failed ==> rows == Filter(old(rows), Assigned())
      ensures !failed ==> forall c :: c in rows <==> c in old(rows) && !Unassigned(c)
    {
      if !failed {
        CleanupExact(rows);
        FilterKeepsUnique(rows, Assigned());
        rows := Filter(rows, Assigned());
      }
    }
  }

  /** Any selection of rows keeps the ids unique. */
  lemma {:induction false} FilterKeepsUnique(rows: seq<Comment>, p: Comment -> bool)
    requires UniqueIds(rows)
    ensures UniqueIds(Filter(rows, p))
    decreases |rows|
  {
    if rows != [] {
      var rest := Filter(rows[1..], p);
      FilterKeepsUnique(rows[1..], p);
      FilterMembers(rows[1..], p);
      if p(rows[0]) {
        var r := [rows[0]] + rest;
        forall i, j | 0 <= i < j < |r|
          ensures r[i].id != r[j].id
        {
          if i == 0 {
            assert r[j] in rows[1..];
            var m :| 0 <= m < |rows[1..]| && rows[1..][m] == r[j];
            assert rows[m + 1] == r[j];
          } else {
            assert r[i] == rest[i - 1] && r[j] == rest[j - 1];
          }
        }
      }
    }
  }
}
