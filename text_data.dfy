/** The text-file attachments of an offer (backend/routes/textDataRoutes.js):
    an upload accepted only for names whose extension is ".txt", stored under
    a fresh id, with its metadata appended to a JSON list; and the listing of
    one offer's files. The metadata file is the state; the file contents,
    the fresh id and the clock are parameters. */
module TextData {
  import opened Common

  const MsgOnlyTxt: string := "Nur .txt Dateien werden unterstützt."
  const MsgInternal: string := "Interner Serverfehler"

  // ---------------------------------------------------------------------
  // path.extname on POSIX paths

  /** The path without its trailing '/' characters. */
  function StripTrailingSlashes(s: string): (r: string)
    ensures |r| <= |s| && r == s[..|r|]
    ensures r == [] || r[|r| - 1] != '/'
  {
    if s != [] && s[|s| - 1] == '/' then StripTrailingSlashes(s[..|s| - 1]) else s
  }

  /** The last path segment: everything after the last '/'. */
  function AfterLastSlash(s: string): (r: string)
    ensures '/' !in r
    ensures '/' !in s ==> r == s
    ensures |r| <= |s| && r == s[|s| - |r|..]
    ensures |r| < |s| ==> s[|s| - |r| - 1] == '/'
    decreases |s|
  {
    if '/' !in s then s
    else
      var i := IndexOfChar(s, '/');
      var t := s[i + 1..];
      var r := AfterLastSlash(t);
      assert t[|t| - |r|..] == s[|s| - |r|..];
      assert |r| < |t| ==> s[|s| - |r| - 1] == t[|t| - |r| - 1];
      r
  }

  /** The index of the last occurrence of `c`. */
  function LastIndexOf(s: string, c: char): (r: Option<nat>)
    ensures r.None? <==> c !in s
    ensures r.Some? ==> r.value < |s| && s[r.value] == c
                        && forall j :: r.value < j < |s| ==> s[j] != c
  {
    if s == [] then None
    else if s[|s| - 1] == c then Some(|s| - 1)
    else
      var r := LastIndexOf(s[..|s| - 1], c);
      assert forall j :: 0 <= j < |s| - 1 ==> s[..|s| - 1][j] == s[j];
      r
  }

  /** The extension of one path segment: from its last '.' to its end, or
      "" when it has no '.', when its last '.' is its first character, or
      when it is "..". */
  function SegmentExt(base: string): (r: string)
    ensures r != "" ==> r[0] == '.' && '.' !in r[1..]
  {
    match LastIndexOf(base, '.')
    case None => ""
    case Some(k) => if k == 0 || base == ".." then "" else base[k..]
  }

  /** Node's `path.extname` for POSIX paths: the extension of the last
      segment once trailing slashes are dropped. */
  function ExtName(path: string): (r: string)
    ensures r != "" ==> r[0] == '.' && '.' !in r[1..]
  {
    SegmentExt(AfterLastSlash(StripTrailingSlashes(path)))
  }

  /** The extension is a proper tail of the segment, so a name that is only
      a dot and letters, like ".txt", has none; and a segment without a '.'
      has none. */
  lemma SegmentExtTail(base: string)
    ensures var r := SegmentExt(base);
            && |r| <= |base| && r == base[|base| - |r|..]
            && (r != "" ==> |r| < |base|)
    ensures '.' !in base ==> SegmentExt(base) == ""
  {
  }

  /** A path without a '.' has no extension. */
  lemma ExtNameNoDot(path: string)
    ensures '.' !in path ==> ExtName(path) == ""
  {
    var p := StripTrailingSlashes(path);
    var base := AfterLastSlash(p);
    if '.' !in path {
      assert '.' !in p by {
        forall j | 0 <= j < |p|
          ensures p[j] != '.'
        {
          assert p[j] == path[j];
        }
      }
      assert '.' !in base by {
        forall j | 0 <= j < |base|
          ensures base[j] != '.'
        {
          assert base[j] == p[|p| - |base| + j];
        }
      }
      SegmentExtTail(base);
    }
  }

  /** The upload check: the extension, lower-cased, is ".txt". */
  predicate IsTxt(name: string)
  {
    ToLower(ExtName(name)) == ".txt"
  }

  /** For a plain file name, the check accepts exactly the names longer than
      four characters whose last four are ".txt" in any case; a name that is
      only ".txt" has no extension. */
  lemma TxtRule(name: string)
    requires '/' !in name
    ensures IsTxt(name) <==> |name| > 4 && ToLower(name[|name| - 4..]) == ".txt"
  {
    assert StripTrailingSlashes(name) == name by {
      if name != [] {
        assert name[|name| - 1] in name;
      }
    }
    var n := |name|;
    if IsTxt(name) {
      var k := LastIndexOf(name, '.').value;
      assert ExtName(name) == name[k..];
      assert |name[k..]| == 4;
    }
    if n > 4 && ToLower(name[n - 4..]) == ".txt" {
      var low := ToLower(name[n - 4..]);
      assert low[0] == LowerChar(name[n - 4]) == '.';
      assert name[n - 4] == '.';
      assert low[1] == 't' && low[2] == 'x' && low[3] == 't';
      assert name[n - 3] != '.' && name[n - 2] != '.' && name[n - 1] != '.';
      var k := LastIndexOf(name, '.').value;
      assert k == n - 4;
      assert name != "..";
    }
  }

  /** The boundary cases of the rule: the extension's case does not matter,
      only the last extension counts, and a leading dot is no extension. */
  lemma UpperCaseAccepted()
    ensures IsTxt("a.TXT")
  {
    TxtRule("a.TXT");
    assert "a.TXT"[1..] == ".TXT";
  }

  lemma LastExtensionCounts()
    ensures !IsTxt("a.txt.bak")
  {
    TxtRule("a.txt.bak");
    var tail := "a.txt.bak"[5..];
    assert tail == ".bak" && ToLower(tail)[1] == LowerChar('b') == 'b';
  }

  lemma DotFileRejected()
    ensures !IsTxt(".txt")
  {
    TxtRule(".txt");
  }

  // ---------------------------------------------------------------------
  // Metadata

  /** One uploaded file's metadata. */
  datatype FileEntry = FileEntry(
    id: string,
    originalName: string,
    storedName: string,
    url: string,
    offerId: string,
    uploadedAt: string)

  /** What the listing shows of an entry. */
  datatype FileRef = FileRef(id: string, name: string, url: string)

  /** What the metadata file holds: nothing readable, a parsed value that is
      not a list, or a list of entries. */
  datatype MetaFile = Unreadable | NonArray | Entries(entries: seq<FileEntry>)

  /** `loadFileData`: a file that cannot be read or parsed is an empty list;
      a parsed value that is not a list comes back as it is, and `None`
      stands for it. */
  function LoadFileData(f: MetaFile): (r: Option<seq<FileEntry>>)
    ensures f.Unreadable? ==> r == Some([])
    ensures f.Entries? ==> r == Some(f.entries)
    ensures f.NonArray? <==> r.None?
  {
    match f
    case Unreadable => Some([])
    case NonArray => None
    case Entries(es) => Some(es)
  }

  /** The entry an accepted upload records: stored as `<id>.txt` and served
      under /assets/. */
  function NewEntry(fileId: string, originalName: string, offerId: string, now: string): (e: FileEntry)
    ensures e.id == fileId && e.originalName == originalName && e.offerId == offerId
    ensures e.storedName == fileId + ".txt" && e.url == "/assets/" + e.storedName
  {
    var stored := fileId + ".txt";
    FileEntry(fileId, originalName, stored, "/assets/" + stored, offerId, now)
  }

  function Project(e: FileEntry): FileRef
  {
    FileRef(e.id, e.originalName, e.url)
  }

  function OnOffer(offerId: string): FileEntry -> bool
  {
    (e: FileEntry) => e.offerId == offerId
  }

  /** GET /offers/:offerId/files: the offer's entries in stored order, each
      shown as id, original name and url. */
  function ListForOffer(es: seq<FileEntry>, offerId: string): (r: seq<FileRef>)
    ensures forall x :: x in r <==> exists e :: e in es && e.offerId == offerId && x == Project(e)
  {
    var f := Filter(es, OnOffer(offerId));
    FilterMembers(es, OnOffer(offerId));
    var r := seq(|f|, i requires 0 <= i < |f| => Project(f[i]));
    assert forall e :: e in f ==> Project(e) in r by {
      forall e | e in f ensures Project(e) in r {
        var i :| 0 <= i < |f| && f[i] == e;
        assert r[i] == Project(e);
      }
    }
    forall x | x in r
      ensures exists e :: e in es && e.offerId == offerId && x == Project(e)
    {
      var i :| 0 <= i < |r| && r[i] == x;
      assert f[i] in f;
    }
    r
  }

  /** Appending an entry adds its projection at the end of its own offer's
      listing and leaves every other offer's listing unchanged. */
  lemma ListAfterAppend(es: seq<FileEntry>, e: FileEntry, offerId: string)
    ensures e.offerId == offerId ==>
              ListForOffer(es + [e], offerId) == ListForOffer(es, offerId) + [Project(e)]
    ensures e.offerId != offerId ==>
              ListForOffer(es + [e], offerId) == ListForOffer(es, offerId)
  {
    FilterAppend(es, [e], OnOffer(offerId));
    assert Filter([e], OnOffer(offerId)) == (if e.offerId == offerId then [e] else []) + Filter([], OnOffer(offerId));
  }

  // ---------------------------------------------------------------------
  // The metadata store

  class FileStore {
    var meta: MetaFile

    constructor (m: MetaFile)
      ensures meta == m
    {
      meta := m;
    }

    /** POST /offers/:offerId/files: refuses a name whose extension is not
        ".txt"; otherwise appends one entry at the end of the list. A
        metadata file that holds something other than a list makes the
        append fail with a 500. */
    method Upload(offerId: string, originalName: string, fileId: string, now: string)
      returns (res: Response<FileEntry>)
      modifies this
      ensures !IsTxt(originalName) ==> meta == old(meta) && res == Failure(400, MsgOnlyTxt)
      ensures IsTxt(originalName) && LoadFileData(old(meta)).None? ==>
                meta == old(meta) && res == Failure(500, MsgInternal)
      ensures IsTxt(originalName) && LoadFileData(old(meta)).Some? ==>
                && meta == Entries(LoadFileData(old(meta)).value
                                   + [NewEntry(fileId, originalName, offerId, now)])
                && res == Success(200, NewEntry(fileId, originalName, offerId, now))
    {
      if ToLower(ExtName(originalName)) != ".txt" {
        res := Failure(400, MsgOnlyTxt);
        return;
      }
      var loaded := LoadFileData(meta);
      if loaded.None? {
        res := Failure(500, MsgInternal);
        return;
      }
      var entry := NewEntry(fileId, originalName, offerId, now);
      meta := Entries(loaded.value + [entry]);
      res := Success(200, entry);
    }

    /** GET /offers/:offerId/files. */
    method List(offerId: string) returns (res: Response<seq<FileRef>>)
      ensures LoadFileData(meta).None? ==> res == Failure(500, MsgInternal)
      ensures LoadFileData(meta).Some? ==>
                res == Success(200, ListForOffer(LoadFileData(meta).value, offerId))
    {
      var loaded := LoadFileData(meta);
      if loaded.None? {
        res := Failure(500, MsgInternal);
      } else {
        res := Success(200, ListForOffer(loaded.value, offerId));
      }
    }
  }
}
