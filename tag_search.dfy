/** The tag-search page of the frontend
    (frontend/src/components/TagSearchPage.js): the parser that turns the
    comma-separated input into tags, and the page state as a record that the
    search button, the server's replies and the status polls update. The
    React hooks are not modelled; the effect that starts and stops the 5 s
    polling interval is the `polling` flag, recomputed whenever the task id
    or the status changes. */
module TagSearch {
  import opened Common
  import Header

  const MsgNoTags: string := "Bitte geben Sie mindestens einen Tag ein."
  const MsgStartFailed: string := "Fehler beim Starten der Suche."
  const MsgPollFailed: string := "Fehler beim Abfragen des Task-Status."

  // ---------------------------------------------------------------------
  // The tag parser

  function TrimAll(pieces: seq<string>): (r: seq<string>)
    ensures |r| == |pieces|
    ensures forall i :: 0 <= i < |r| ==> r[i] == Trim(pieces[i])
  {
    Map(pieces, (t: string) => Trim(t))
  }

  function NonEmpty(): string -> bool
  {
    (t: string) => t != ""
  }

  /** `input.split(",").map(trim).filter(tag => tag)`. */
  function ParseTags(input: string): (tags: seq<string>)
    ensures |tags| <= |Split(input, ',')|
  {
    Filter(TrimAll(Split(input, ',')), NonEmpty())
  }

  lemma TrimAllAppend(x: seq<string>, y: seq<string>)
    ensures TrimAll(x + y) == TrimAll(x) + TrimAll(y)
  {
    MapAppend(x, y, (t: string) => Trim(t));
  }

  /** Input without a comma is one tag, its trimmed text, or none at all
      when that is empty. */
  lemma ParseTagsSingle(input: string)
    ensures ',' !in input ==>
              ParseTags(input) == (if Trim(input) == "" then [] else [Trim(input)])
  {
    if ',' !in input {
      assert Split(input, ',') == [input];
      assert TrimAll([input]) == [Trim(input)];
    }
  }

  /** The tags of two inputs joined by a comma are the first input's tags
      followed by the second's: the order of the input is kept, and so is a
      tag given twice. */
  lemma ParseTagsAppend(a: string, b: string)
    ensures ParseTags(a + [','] + b) == ParseTags(a) + ParseTags(b)
  {
    SplitAppend(a, b, ',');
    TrimAllAppend(Split(a, ','), Split(b, ','));
    FilterAppend(TrimAll(Split(a, ',')), TrimAll(Split(b, ',')), NonEmpty());
  }

  /** A tag is exactly a trimmed comma-separated piece of the input that is
      not empty. */
  lemma ParseTagsMembers(input: string)
    ensures forall t :: t in ParseTags(input) <==> t != "" && t in TrimAll(Split(input, ','))
  {
    FilterMembers(TrimAll(Split(input, ',')), NonEmpty());
  }

  /** A tag typed twice is sent twice. */
  lemma RepeatedTagKept(t: string)
    requires t != "" && ',' !in t && Trim(t) == t
    ensures ParseTags(t + [','] + t) == [t, t]
  {
    ParseTagsSingle(t);
    ParseTagsAppend(t, t);
  }

  /** No tag is empty, none has white space at either end, and none contains
      a comma. */
  lemma ParseTagsClean(input: string)
    ensures forall t :: t in ParseTags(input) ==>
              t != "" && !IsSpace(t[0]) && !IsSpace(t[|t| - 1]) && ',' !in t
  {
    var pieces := Split(input, ',');
    var trimmed := TrimAll(pieces);
    FilterMembers(trimmed, NonEmpty());
    forall t | t in ParseTags(input)
      ensures t != "" && !IsSpace(t[0]) && !IsSpace(t[|t| - 1]) && ',' !in t
    {
      var k :| 0 <= k < |trimmed| && trimmed[k] == t;
      TrimNoNewChars(pieces[k], ',');
    }
  }

  /** Trimming only removes characters. */
  lemma TrimNoNewChars(s: string, c: char)
    requires c !in s
    ensures c !in Trim(s)
  {
    var a, b :| 0 <= a <= b <= |s| && Trim(s) == s[a..b]
                && AllSpace(s[..a]) && AllSpace(s[b..]);
  }

  // ---------------------------------------------------------------------
  // The page state

  datatype Status = NoStatus | Pending | Completed

  /** The page's state variables; `taskId` is `None` while it is null, and
      `polling` says whether the status poll interval is running. */
  datatype PageState = PageState(
    tagInput: string,
    taskId: Option<string>,
    status: Status,
    result: seq<string>,
    error: string,
    isSearching: bool,
    polling: bool)

  /** What the search button posts to the backend. */
  datatype SearchRequest = SearchRequest(
    tags: seq<string>,
    substring: bool,
    caseInsensitive: bool,
    authorization: string)

  /** The reply to one status poll. */
  datatype PollReply = PollOk(status: string, result: seq<string>) | PollError

  const Initial: PageState := PageState("", None, NoStatus, [], "", false, false)

  /** Whether the effect's condition holds: a truthy task id and a pending
      search. */
  predicate ShouldPoll(s: PageState)
  {
    s.taskId.Some? && Truthy(s.taskId.value) && s.status == Pending
  }

  /** The polling effect: when the task id or the status has changed, the
      old interval is cleared and a new one started if the condition holds;
      otherwise whatever interval runs keeps running. */
  function Effect(before: PageState, after: PageState): (s: PageState)
    ensures s == after.(polling := s.polling)
    ensures (before.taskId, before.status) != (after.taskId, after.status) ==> s.polling == ShouldPoll(after)
    ensures (before.taskId, before.status) == (after.taskId, after.status) ==> s.polling == after.polling
  {
    if (before.taskId, before.status) != (after.taskId, after.status) then
      after.(polling := ShouldPoll(after))
    else after
  }

  /** `handleSearch` up to the request: input without tags only sets the
      error and sends nothing; otherwise the page goes to Pending with an
      empty result, and the request carries the tags, both search flags and
      the group's authorization value. */
  function Search(s: PageState, userGroup: string): (out: (PageState, Option<SearchRequest>))
    ensures ParseTags(s.tagInput) == [] ==> out == (s.(error := MsgNoTags), None)
    ensures ParseTags(s.tagInput) != [] ==>
              && out.1 == Some(SearchRequest(ParseTags(s.tagInput), true, true, Header.AuthValue(userGroup)))
              && out.0.status == Pending && out.0.result == [] && out.0.error == ""
              && out.0.isSearching && out.0.taskId == s.taskId && out.0.tagInput == s.tagInput
  {
    var tags := ParseTags(s.tagInput);
    if tags == [] then (s.(error := MsgNoTags), None)
    else
      var next := s.(error := "", isSearching := true, status := Pending, result := []);
      (Effect(s, next), Some(SearchRequest(tags, true, true, Header.AuthValue(userGroup))))
  }

  /** The backend accepted the search and answered with a task id (`None`
      when the reply had none). */
  function Accepted(s: PageState, taskId: Option<string>): (t: PageState)
    ensures t == s.(taskId := taskId, polling := t.polling)
    ensures taskId != s.taskId ==> t.polling == ShouldPoll(t)
    ensures taskId == s.taskId ==> t.polling == s.polling
  {
    Effect(s, s.(taskId := taskId))
  }

  /** The search request failed: the error is shown and the search is
      over, but the status, the task id and the polling stay as they were. */
  function RequestFailed(s: PageState): (t: PageState)
    ensures t.error == MsgStartFailed && !t.isSearching
    ensures t.status == s.status && t.taskId == s.taskId && t.polling == s.polling
    ensures t.tagInput == s.tagInput && t.result == s.result
  {
    s.(error := MsgStartFailed, isSearching := false)
  }

  /** One tick of the polling interval. A "Completed" reply sets the result
      and stops the search and the polling; any other status changes
      nothing; an error sets the error message and stops the polling while
      the status stays Pending. Without a running interval nothing happens. */
  function Poll(s: PageState, reply: PollReply): (t: PageState)
    ensures !s.polling ==> t == s
    ensures s.polling && reply.PollOk? && reply.status == "Completed" ==>
              && t.status == Completed && t.result == reply.result
              && !t.isSearching && !t.polling
              && t.taskId == s.taskId && t.error == s.error
    ensures s.polling && reply.PollOk? && reply.status != "Completed" ==> t == s
    ensures s.polling && reply.PollError? ==>
              t == s.(error := MsgPollFailed, isSearching := false, polling := false)
  {
    if !s.polling then s
    else match reply
      case PollOk(status, result) =>
        if status == "Completed" then
          Effect(s, s.(result := result, status := Completed, isSearching := false, polling := false))
        else s
      case PollError =>
        s.(error := MsgPollFailed, isSearching := false, polling := false)
  }

  /** `handleNewSearch`: back to the initial state. */
  function NewSearch(s: PageState): (t: PageState)
    ensures t == Initial
  {
    Effect(s, Initial)
  }

  /** A completed search stays completed: every further poll leaves the
      state alone until the next search. */
  lemma CompletedIsFinal(s: PageState, reply: PollReply, next: PollReply)
    requires s.polling && reply.PollOk? && reply.status == "Completed"
    ensures Poll(Poll(s, reply), next) == Poll(s, reply)
  {
  }

  /** A whole run from the initial page: typing tags, searching, the task
      being accepted and one "Completed" poll leave the page Completed with
      the server's result, no error and no running interval. */
  lemma SearchLifecycle(input: string, userGroup: string, taskId: string, result: seq<string>)
    requires ParseTags(input) != [] && taskId != ""
    ensures var (searching, req) := Search(Initial.(tagInput := input), userGroup);
            var accepted := Accepted(searching, Some(taskId));
            var done := Poll(accepted, PollOk("Completed", result));
            && req.Some? && req.value.tags == ParseTags(input)
            && searching.status == Pending && accepted.polling
            && done.status == Completed && done.result == result
            && done.error == "" && !done.isSearching && !done.polling
  {
  }

  /** A search whose request fails leaves the page Pending without a task
      id, so no polling ever starts and the page stays Pending until the
      next search. */
  lemma FailedSearchStaysPending(input: string, userGroup: string, reply: PollReply)
    requires ParseTags(input) != []
    ensures var failed := RequestFailed(Search(Initial.(tagInput := input), userGroup).0);
            && failed.status == Pending && failed.taskId.None? && !failed.polling
            && failed.error == MsgStartFailed && !failed.isSearching
            && Poll(failed, reply) == failed
  {
  }

  /** A failed status poll stops the polling for good: the task id and the
      Pending status stay as they were, so the effect does not start a new
      interval, and later ticks change nothing. */
  lemma PollErrorStopsPolling(s: PageState, next: PollReply)
    requires s.polling
    ensures var t := Poll(s, PollError);
            && t.status == s.status && t.taskId == s.taskId && !t.polling
            && Poll(t, next) == t
  {
  }
}
