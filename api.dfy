/**
 * The remote-service gateway's result shaping. The HTTP call itself is not
 * modelled: each operation receives the parsed response as a value.
 */
module Api {
  import opened Wrappers

  /**
   * A parsed service response: whether the call succeeded, the body the
   * success branch reads, and the body's `error` field as `dig('error')` sees it.
   */
  datatype Response<T> = Response(success: bool, body: T, error: Option<string>)

  datatype Person = Person(id: int, name: string, username: string)

  /** One record of the memberships listing; only its `person` is read. */
  datatype Membership = Membership(person: Person)

  datatype Story = Story(id: int, name: string, storyType: string, currentState: string)

  const FailedToReach: string := "Failed to reach API."

  /** `dig('error') || 'Failed to reach API.'`. */
  function ErrorMessage(error: Option<string>): string
  {
    match error
    case Some(e) => e
    case None => FailedToReach
  }

  /** The username -> id map the membership loop leaves behind: later records overwrite earlier ones. */
  function MemberMap(members: seq<Membership>): map<string, int>
  {
    if members == [] then map[]
    else
      var last := members[|members| - 1].person;
      MemberMap(members[..|members| - 1])[last.username := last.id]
  }

  /** `get_all_users_for_project`: nil on failure, otherwise the map filled record by record. */
  method GetAllUsersForProject(response: Response<seq<Membership>>) returns (users: Option<map<string, int>>)
    ensures users.None? <==> !response.success
    ensures response.success ==> users == Some(MemberMap(response.body))
  {
    if !response.success {
      return None;
    }
    var memberMap: map<string, int> := map[];
    var i := 0;
    while i < |response.body|
      invariant 0 <= i <= |response.body|
      invariant memberMap == MemberMap(response.body[..i])
    {
      var person := response.body[i].person;
      assert response.body[..i + 1][..i] == response.body[..i];
      memberMap := memberMap[person.username := person.id];
      i := i + 1;
    }
    assert response.body[..i] == response.body;
    return Some(memberMap);
  }

  /** The member map has exactly one key per username appearing in the records. */
  lemma {:induction false} MemberMapKeys(members: seq<Membership>)
    ensures MemberMap(members).Keys == set i | 0 <= i < |members| :: members[i].person.username
  {
    if members != [] {
      var init := members[..|members| - 1];
      MemberMapKeys(init);
      var keys := set i | 0 <= i < |members| :: members[i].person.username;
      var initKeys := set i | 0 <= i < |init| :: init[i].person.username;
      assert keys == initKeys + {members[|members| - 1].person.username} by {
        forall u | u in keys ensures u in initKeys + {members[|members| - 1].person.username} {
          var i :| 0 <= i < |members| && members[i].person.username == u;
          if i < |init| {
            assert init[i] == members[i];
          }
        }
        forall u | u in initKeys ensures u in keys {
          var i :| 0 <= i < |init| && init[i].person.username == u;
          assert members[i] == init[i];
        }
      }
    }
  }

  /** Each username is valued with the id of its LAST record: a later duplicate overwrites an earlier one. */
  lemma {:induction false} MemberMapLastWins(members: seq<Membership>, i: nat)
    requires i < |members|
    requires forall j :: i < j < |members| ==> members[j].person.username != members[i].person.username
    ensures members[i].person.username in MemberMap(members)
    ensures MemberMap(members)[members[i].person.username] == members[i].person.id
  {
    if i < |members| - 1 {
      var init := members[..|members| - 1];
      assert init[i] == members[i];
      MemberMapLastWins(init, i);
    }
  }

  /** The result of `get_story_by_id`: `{type: ...}` or `{error: ...}`. */
  datatype StoryLookup = Found(storyType: string) | LookupError(error: string)

  /** `get_story_by_id`. */
  function GetStoryById(response: Response<Story>): (r: StoryLookup)
    ensures r.Found? <==> response.success
    ensures response.success ==> r.storyType == response.body.storyType
    ensures !response.success && response.error.Some? ==> r == LookupError(response.error.value)
    ensures !response.success && response.error.None? ==> r == LookupError("Failed to reach API.")
  {
    if response.success then Found(response.body.storyType)
    else LookupError(ErrorMessage(response.error))
  }

  const ConfirmationPrefix: string := "Story #"
  const ConfirmationMiddle: string := " successfully "

  /** The message printed after a successful state change. */
  function Confirmation(id: string, state: string): string
  {
    ConfirmationPrefix + id + ConfirmationMiddle + state + "."
  }

  /** `update_story_state`: the confirmation on success, the error text otherwise; the reply body is never read. */
  function UpdateStoryState(id: string, state: string, response: Response<()>): (msg: string)
    ensures response.success ==> msg == "Story #" + id + " successfully " + state + "."
    ensures !response.success && response.error.Some? ==> msg == response.error.value
    ensures !response.success && response.error.None? ==> msg == "Failed to reach API."
  {
    if response.success then Confirmation(id, state) else ErrorMessage(response.error)
  }

  /** Where the text after the last space of `s` starts (0 when `s` has no space). */
  function AfterLastSpace(s: string): (i: nat)
    ensures i <= |s|
    ensures forall j :: i <= j < |s| ==> s[j] != ' '
    ensures i > 0 ==> s[i - 1] == ' '
  {
    if s == [] || s[|s| - 1] == ' ' then |s| else AfterLastSpace(s[..|s| - 1])
  }

  /** Text ending in a space followed by space-free text splits right after that space. */
  lemma {:induction false} AfterLastSpaceSplit(x: string, y: string)
    requires |x| > 0 && x[|x| - 1] == ' '
    requires forall j :: 0 <= j < |y| ==> y[j] != ' '
    ensures AfterLastSpace(x + y) == |x|
  {
    if y != [] {
      var y' := y[..|y| - 1];
      assert (x + y)[..|x + y| - 1] == x + y';
      AfterLastSpaceSplit(x, y');
    } else {
      assert x + y == x;
    }
  }

  /**
   * Reads the story id and the state back out of a confirmation message. The
   * state is the word after the last space, so the id may hold spaces.
   */
  function ParseConfirmation(msg: string): Option<(string, string)>
  {
    var p := ConfirmationPrefix;
    var m := ConfirmationMiddle;
    if |msg| < |p| + 1 || msg[..|p|] != p || msg[|msg| - 1] != '.' then None
    else
      var body := msg[|p|..|msg| - 1];
      var i := AfterLastSpace(body);
      var head := body[..i];
      if |head| < |m| || head[|head| - |m|..] != m then None
      else Some((head[..|head| - |m|], body[i..]))
  }

  /** The confirmation names the story and the state it was moved to, recoverably (states are single words). */
  lemma ConfirmationRoundTrip(id: string, state: string)
    requires forall j :: 0 <= j < |state| ==> state[j] != ' '
    ensures ParseConfirmation(Confirmation(id, state)) == Some((id, state))
  {
    var msg := Confirmation(id, state);
    var p := ConfirmationPrefix;
    var m := ConfirmationMiddle;
    assert msg[..|p|] == p;
    var body := msg[|p|..|msg| - 1];
    assert body == (id + m) + state;
    AfterLastSpaceSplit(id + m, state);
    var i := AfterLastSpace(body);
    var head := body[..i];
    assert head == id + m;
    assert head[|head| - |m|..] == m;
    assert head[..|head| - |m|] == id;
    assert body[i..] == state;
  }

  /** One line of the search result: a story summary or an error marker. */
  datatype StoryEntry = Summary(storyId: int, storyName: string, status: string) | ErrorEntry(error: string)

  /** The search expression sent for `username`. */
  function SearchQuery(username: string): (q: string)
    ensures QueryOwner(q) == Some(username)
  {
    var q := "owner:\"" + username + "\"";
    assert q[..7] == "owner:\"";
    assert q[7..|q| - 1] == username;
    q
  }

  /** The username read back out of an `owner:"..."` search expression. */
  function QueryOwner(query: string): Option<string>
  {
    var p := "owner:\"";
    if |query| < |p| + 1 || query[..|p|] != p || query[|query| - 1] != '"' then None
    else Some(query[|p|..|query| - 1])
  }

  /** The `map` over the returned stories: one summary per story, in order. */
  function Summarize(stories: seq<Story>): (entries: seq<StoryEntry>)
    ensures |entries| == |stories|
    ensures forall k :: 0 <= k < |stories| ==>
              entries[k] == Summary(stories[k].id, stories[k].name, stories[k].currentState)
  {
    if stories == [] then []
    else [Summary(stories[0].id, stories[0].name, stories[0].currentState)] + Summarize(stories[1..])
  }

  /** `get_current_stories_for_user`, given the response to the `SearchQuery` request. */
  function GetCurrentStoriesForUser(response: Response<seq<Story>>): (entries: seq<StoryEntry>)
    ensures response.success ==> |entries| == |response.body|
    ensures response.success ==> forall k :: 0 <= k < |entries| ==>
              entries[k] == Summary(response.body[k].id, response.body[k].name, response.body[k].currentState)
    ensures !response.success ==> entries == [ErrorEntry(ErrorMessage(response.error))]
  {
    if response.success then Summarize(response.body)
    else [ErrorEntry(ErrorMessage(response.error))]
  }

  /** A caller can tell failure from success: only a failed search yields an error entry. */
  lemma SearchFailureIsMarked(response: Response<seq<Story>>)
    ensures (exists k :: 0 <= k < |GetCurrentStoriesForUser(response)| && GetCurrentStoriesForUser(response)[k].ErrorEntry?)
            <==> !response.success
  {
    var entries := GetCurrentStoriesForUser(response);
    if !response.success {
      assert entries[0].ErrorEntry?;
    }
  }
}
