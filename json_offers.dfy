/** The JSON-file offer attachments and comments of the older backend
    (Project/routes/offers.js). The store is one file holding a JSON array
    of offers; each route loads it, finds the offer with `find`, pushes onto
    that offer's nested `files` or `comments` array and writes the array
    back. The uuids and the clock are parameters. */
module JsonOffers {
  import opened Common

  const MsgNotFoundPost: string := "Offer not found POST"
  const MsgNotFoundGet: string := "Offer not found GET"
  const MsgNotFound: string := "Offer not found"
  const MsgUploadFailed: string := "File upload failed POST"

  /** An attached file as the offer records it. */
  datatype FileRef = FileRef(id: string, name: string, url: string)

  /** A comment as the offer records it; a comment posted without text has
      no `text` field. */
  datatype CommentRef = CommentRef(id: string, text: Option<string>, timestamp: string)

  /** An offer of the file: its id, its nested arrays (absent when the
      offer has none) and its other fields. */
  datatype JOffer = JOffer(
    id: string,
    files: Option<seq<FileRef>>,
    comments: Option<seq<CommentRef>>,
    fields: map<string, string>)

  /** The offers file: unreadable or unparsable, or an array of offers. */
  datatype OffersFile = Unreadable | Offers(offers: seq<JOffer>)

  /** `loadOffers`: any read or parse failure is an empty list. */
  function LoadOffers(f: OffersFile): (r: seq<JOffer>)
    ensures f.Unreadable? ==> r == []
    ensures f.Offers? ==> r == f.offers
  {
    match f
    case Unreadable => []
    case Offers(os) => os
  }

  function HasId(id: string): JOffer -> bool
  {
    (o: JOffer) => o.id == id
  }

  /** `offers.find(o => o.id === id)`, as the index of the offer found. */
  function FindSpec(offers: seq<JOffer>, id: string): (r: Option<nat>)
    ensures r.Some? ==> r.value < |offers| && offers[r.value].id == id
                        && forall j :: 0 <= j < r.value ==> offers[j].id != id
    ensures r.None? <==> forall j :: 0 <= j < |offers| ==> offers[j].id != id
  {
    FirstIndex(offers, HasId(id))
  }

  /** The `find` scan, one offer at a time. */
  method FindOffer(offers: seq<JOffer>, id: string) returns (r: Option<nat>)
    ensures r == FindSpec(offers, id)
  {
    var i := 0;
    while i < |offers|
      invariant 0 <= i <= |offers|
      invariant forall j :: 0 <= j < i ==> offers[j].id != id
    {
      if offers[i].id == id {
        return Some(i);
      }
      i := i + 1;
    }
    return None;
  }

  /** The file record of an upload: the stored name is "file-<uuid>.txt" and
      the url serves it under /files/. */
  function NewFile(fileId: string, nameUuid: string): (f: FileRef)
    ensures f.name == "file-" + nameUuid + ".txt"
    ensures f.url == "/files/" + f.name && f.id == fileId
  {
    var name := "file-" + nameUuid + ".txt";
    FileRef(fileId, name, "/files/" + name)
  }

  /** Changing the nested arrays of one offer keeps every offer's id, so the
      same offer is found again afterwards. */
  lemma FindAfterUpdate(offers: seq<JOffer>, id: string, k: nat, o: JOffer)
    requires k < |offers| && o.id == offers[k].id
    ensures FindSpec(offers[k := o], id) == FindSpec(offers, id)
  {
    var updated := offers[k := o];
    assert forall j :: 0 <= j < |offers| ==> HasId(id)(updated[j]) == HasId(id)(offers[j]);
    var a, b := FindSpec(updated, id), FindSpec(offers, id);
    if a.Some? && b.Some? {
      assert !(a.value < b.value) && !(b.value < a.value);
    }
  }

  class OfferStore {
    var file: OffersFile

    constructor (f: OffersFile)
      ensures file == f
    {
      file := f;
    }

    /** POST /offers/:id/files: appends one file record to the first offer
        with that id. An offer without a `files` array makes the push throw,
        which the handler reports as a 500. */
    method AddFile(id: string, fileId: string, nameUuid: string) returns (res: Response<FileRef>)
      modifies this
      ensures var offers := LoadOffers(old(file));
              match FindSpec(offers, id)
              case None => file == old(file) && res == Failure(404, MsgNotFoundPost)
              case Some(k) =>
                if offers[k].files.None? then
                  file == old(file) && res == Failure(500, MsgUploadFailed)
                else
                  && file == Offers(offers[k := offers[k].(files :=
                                      Some(offers[k].files.value + [NewFile(fileId, nameUuid)]))])
                  && res == Success(201, NewFile(fileId, nameUuid))
    {
      var offers := LoadOffers(file);
      var found := FindOffer(offers, id);
      match found {
        case None =>
          res := Failure(404, MsgNotFoundPost);
        case Some(k) =>
          var offer := offers[k];
          if offer.files.None? {
            res := Failure(500, MsgUploadFailed);
          } else {
            var f := NewFile(fileId, nameUuid);
            file := Offers(offers[k := offer.(files := Some(offer.files.value + [f]))]);
            res := Success(201, f);
          }
      }
    }

    /** GET /offers/:id/files: the offer's files, or none when it has no
        `files` array. */
    method ListFiles(id: string) returns (res: Response<seq<FileRef>>)
      ensures var offers := LoadOffers(file);
              match FindSpec(offers, id)
              case None => res == Failure(404, MsgNotFoundGet)
              case Some(k) =>
                res == Success(200, if offers[k].files.Some? then offers[k].files.value else [])
    {
      var offers := LoadOffers(file);
      var found := FindOffer(offers, id);
      match found {
        case None =>
          res := Failure(404, MsgNotFoundGet);
        case Some(k) =>
          res := Success(200, if offers[k].files.Some? then offers[k].files.value else []);
      }
    }

    /** POST /offers/:id/comments: appends one comment to the first offer
        with that id, whatever its text. An offer without a `comments` array
        makes the push throw outside any handler. */
    method AddComment(id: string, text: Option<string>, commentId: string, now: string)
      returns (res: Response<CommentRef>)
      modifies this
      ensures var offers := LoadOffers(old(file));
              match FindSpec(offers, id)
              case None => file == old(file) && res == Failure(404, MsgNotFound)
              case Some(k) =>
                if offers[k].comments.None? then
                  file == old(file) && res == Unhandled
                else
                  && file == Offers(offers[k := offers[k].(comments :=
                                      Some(offers[k].comments.value + [CommentRef(commentId, text, now)]))])
                  && res == Success(201, CommentRef(commentId, text, now))
    {
      var offers := LoadOffers(file);
      var found := FindOffer(offers, id);
      match found {
        case None =>
          res := Failure(404, MsgNotFound);
        case Some(k) =>
          var offer := offers[k];
          if offer.comments.None? {
            res := Unhandled;
          } else {
            var c := CommentRef(commentId, text, now);
            file := Offers(offers[k := offer.(comments := Some(offer.comments.value + [c]))]);
            res := Success(201, c);
          }
      }
    }
  }

  /** An uploaded file is listed afterwards: once AddFile has pushed a record
      onto the offer's files, GET on the same id returns the old files
      followed by that record. */
  lemma FileAddedIsListed(offers: seq<JOffer>, id: string, fileId: string, nameUuid: string)
    requires FindSpec(offers, id).Some?
    requires offers[FindSpec(offers, id).value].files.Some?
    ensures var k := FindSpec(offers, id).value;
            var o := offers[k].(files := Some(offers[k].files.value + [NewFile(fileId, nameUuid)]));
            var after := offers[k := o];
            && FindSpec(after, id) == Some(k)
            && after[k].files.value == offers[k].files.value + [NewFile(fileId, nameUuid)]
            && forall j :: 0 <= j < |offers| && j != k ==> after[j] == offers[j]
  {
    var k := FindSpec(offers, id).value;
    var o := offers[k].(files := Some(offers[k].files.value + [NewFile(fileId, nameUuid)]));
    FindAfterUpdate(offers, id, k, o);
  }
}
