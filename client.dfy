/**
 * The command surface's own logic: the status-keyword table, the decision
 * made by `update <id> <keyword>`, and the separator layout of `list`.
 * Fetching and updating are recorded as calls; their replies are inputs.
 */
module Client {
  import opened Wrappers
  import Api

  /** A table value: one target state, or the two states `finish` may lead to. */
  datatype StatusTarget = Single(state: string) | Either(first: string, second: string)

  /** `@story_statuses`: the keywords `update` accepts. */
  const StoryStatuses: map<string, StatusTarget> := map[
    "unstart" := Single("unstarted"),
    "start" := Single("started"),
    "deliver" := Single("delivered"),
    "finish" := Either("finished", "accepted")
  ]

  /** The keywords as the usage message lists them. */
  const ListedStatuses: string := "unstart, start, deliver, finish"
  const UsageMessage: string := "Invalid story status. Story statuses are: " + ListedStatuses
  const NotFoundMessage: string := "Story not found, please validate story number."

  /** `word` occurs somewhere in `text`. */
  predicate Mentions(text: string, word: string)
  {
    exists i :: 0 <= i <= |text| - |word| && text[i..][..|word|] == word
  }

  /**
   * The table holds the four keywords, only `finish` has two target states,
   * and the usage message printed for any other keyword names each of them.
   */
  lemma StoryStatusesTable()
    ensures StoryStatuses.Keys == {"unstart", "start", "deliver", "finish"}
    ensures forall k | k in StoryStatuses :: StoryStatuses[k].Either? <==> k == "finish"
    ensures forall k | k in StoryStatuses :: Mentions(UsageMessage, k)
  {
    var prefix := "Invalid story status. Story statuses are: ";
    ListedNamesKeywords(ListedStatuses);
    MentionsAfter(prefix, ListedStatuses, "unstart");
    MentionsAfter(prefix, ListedStatuses, "start");
    MentionsAfter(prefix, ListedStatuses, "deliver");
    MentionsAfter(prefix, ListedStatuses, "finish");
  }

  lemma ListedNamesKeywords(t: string)
    requires t == "unstart, start, deliver, finish"
    ensures Mentions(t, "unstart") && Mentions(t, "start") && Mentions(t, "deliver") && Mentions(t, "finish")
  {
    assert t[0..] == t;
    assert t[..7] == "unstart";
    assert t[9..][..5] == "start";
    assert t[16..][..7] == "deliver";
    assert t[25..][..6] == "finish";
  }

  lemma MentionsAfter(p: string, t: string, w: string)
    requires Mentions(t, w)
    ensures Mentions(p + t, w)
  {
    var i :| 0 <= i <= |t| - |w| && t[i..][..|w|] == w;
    assert (p + t)[|p| + i..] == t[i..];
  }

  /** What `validate_and_update_story` decides to do. */
  datatype Outcome = Usage | NotFound | Update(state: string)

  /**
   * The decision: reject an unknown keyword, then a missing story, then pick
   * the target state (for `finish`, `accepted` on a chore, `finished` otherwise).
   * `storyType` is the fetched story's type, `None` when the fetch gave nil.
   */
  function Decide(keyword: string, storyType: Option<string>): (o: Outcome)
    ensures o == Usage <==> keyword !in {"unstart", "start", "deliver", "finish"}
    ensures o == NotFound <==> keyword in {"unstart", "start", "deliver", "finish"} && storyType.None?
    ensures o.Update? <==> keyword in {"unstart", "start", "deliver", "finish"} && storyType.Some?
    ensures o.Update? && keyword == "unstart" ==> o.state == "unstarted"
    ensures o.Update? && keyword == "start" ==> o.state == "started"
    ensures o.Update? && keyword == "deliver" ==> o.state == "delivered"
    ensures o.Update? && keyword == "finish" ==> (o.state == "accepted" <==> storyType.value == "chore")
    ensures o.Update? && keyword == "finish" ==> (o.state == "finished" <==> storyType.value != "chore")
  {
    if keyword !in StoryStatuses then Usage
    else if storyType.None? then NotFound
    else if keyword != "finish" then Update(StoryStatuses[keyword].state)
    else if storyType.value == "chore" then Update("accepted")
    else Update("finished")
  }

  /** The target state of an update always comes from the keyword table. */
  lemma UpdateStateFromTable(keyword: string, storyType: Option<string>)
    requires Decide(keyword, storyType).Update?
    ensures keyword in StoryStatuses
    ensures match StoryStatuses[keyword]
            case Single(s) => Decide(keyword, storyType).state == s
            case Either(a, b) => Decide(keyword, storyType).state in {a, b}
  {
  }

  /** A request made to the tracker. */
  datatype Call = FetchStory(id: string) | UpdateStory(id: string, state: string)

  /** The requests one command made, in order, and the lines it printed. */
  datatype Trace = Trace(calls: seq<Call>, output: seq<string>)

  /**
   * `validate_and_update_story(id, keyword)`. `storyType` stands for what the
   * fetch returns and `updateResponse` for the reply to the update request.
   */
  function ValidateAndUpdateStory(id: string, keyword: string, storyType: Option<string>,
                                  updateResponse: Api.Response<()>): (t: Trace)
    ensures |t.output| == 1
    ensures t.calls == [] <==> keyword !in {"unstart", "start", "deliver", "finish"}
    ensures t.calls != [] ==> t.calls[0] == FetchStory(id)
    ensures forall k :: 0 <= k < |t.calls| ==> t.calls[k].id == id
    ensures UpdateCount(t.calls) <= 1
    ensures UpdateCount(t.calls) == 1 <==> keyword in {"unstart", "start", "deliver", "finish"} && storyType.Some?
  {
    match Decide(keyword, storyType)
    case Usage => Trace([], [UsageMessage])
    case NotFound =>
      var calls := [FetchStory(id)];
      assert UpdateCount(calls[1..]) == 0;
      Trace(calls, [NotFoundMessage])
    case Update(state) =>
      var calls := [FetchStory(id), UpdateStory(id, state)];
      assert calls[1..][1..] == [];
      assert UpdateCount(calls[1..]) == 1;
      Trace(calls, [Api.UpdateStoryState(id, state, updateResponse)])
  }

  function UpdateCount(calls: seq<Call>): nat
  {
    if calls == [] then 0
    else (if calls[0].UpdateStory? then 1 else 0) + UpdateCount(calls[1..])
  }

  /** An unknown keyword prints the usage message and makes no request at all. */
  lemma UnknownKeywordMakesNoCall(id: string, keyword: string, storyType: Option<string>,
                                  updateResponse: Api.Response<()>)
    requires keyword !in {"unstart", "start", "deliver", "finish"}
    ensures ValidateAndUpdateStory(id, keyword, storyType, updateResponse) == Trace([], [UsageMessage])
  {
  }

  /** A missing story prints the not-found message after the fetch, and no update is requested. */
  lemma MissingStoryMakesNoUpdate(id: string, keyword: string, updateResponse: Api.Response<()>)
    requires keyword in {"unstart", "start", "deliver", "finish"}
    ensures ValidateAndUpdateStory(id, keyword, None, updateResponse) == Trace([FetchStory(id)], [NotFoundMessage])
    ensures UpdateCount(ValidateAndUpdateStory(id, keyword, None, updateResponse).calls) == 0
  {
  }

  /**
   * A valid command on an existing story makes exactly one update request,
   * for the decided state, and prints the gateway's reply verbatim.
   */
  lemma ValidCommandUpdatesOnce(id: string, keyword: string, storyType: string,
                                updateResponse: Api.Response<()>)
    requires keyword in {"unstart", "start", "deliver", "finish"}
    ensures var t := ValidateAndUpdateStory(id, keyword, Some(storyType), updateResponse);
            var state := Decide(keyword, Some(storyType)).state;
            && t.calls == [FetchStory(id), UpdateStory(id, state)]
            && UpdateCount(t.calls) == 1
            && t.output == [Api.UpdateStoryState(id, state, updateResponse)]
  {
    var state := Decide(keyword, Some(storyType)).state;
    var calls := [FetchStory(id), UpdateStory(id, state)];
    assert ValidateAndUpdateStory(id, keyword, Some(storyType), updateResponse).calls == calls;
    assert calls[1..] == [UpdateStory(id, state)];
    assert UpdateCount(calls[1..][1..]) == 0;
    assert UpdateCount(calls[1..]) == 1;
  }

  /** Finishing a chore accepts it; finishing any other story finishes it. */
  lemma FinishDependsOnType(id: string, storyType: string, updateResponse: Api.Response<()>)
    ensures ValidateAndUpdateStory(id, "finish", Some(storyType), updateResponse).calls
            == [FetchStory(id), UpdateStory(id, if storyType == "chore" then "accepted" else "finished")]
  {
  }

  /** One line of `list`'s output: printed text, or one formatted story. */
  datatype Line = Printed(text: string) | StoryBlock(entry: Api.StoryEntry)

  /** What a separator line prints. */
  const SeparatorText: string := "****************************************"

  const Separator: Line := Printed(SeparatorText)

  /** A line of exactly forty `*` characters. */
  predicate IsStarLine(l: Line)
  {
    l.Printed? && |l.text| == 40 && forall j :: 0 <= j < |l.text| ==> l.text[j] == '*'
  }

  /** The stories shown, in order. */
  function Blocks(lines: seq<Line>): seq<Api.StoryEntry>
  {
    if lines == [] then []
    else
      var last := lines[|lines| - 1];
      Blocks(lines[..|lines| - 1]) + (if last.StoryBlock? then [last.entry] else [])
  }

  function SeparatorCount(lines: seq<Line>): nat
  {
    if lines == [] then 0
    else SeparatorCount(lines[..|lines| - 1]) + (if lines[|lines| - 1] == Separator then 1 else 0)
  }

  /** Printing a separator and then a story adds that story and one separator. */
  lemma AppendStory(lines: seq<Line>, e: Api.StoryEntry)
    ensures Blocks(lines + [Separator, StoryBlock(e)]) == Blocks(lines) + [e]
    ensures SeparatorCount(lines + [Separator, StoryBlock(e)]) == SeparatorCount(lines) + 1
  {
    var next := lines + [Separator, StoryBlock(e)];
    assert next[..|next| - 1] == lines + [Separator];
    assert (lines + [Separator])[..|lines|] == lines;
  }

  /** Printing a separator adds one separator and no story. */
  lemma AppendSeparator(lines: seq<Line>)
    ensures Blocks(lines + [Separator]) == Blocks(lines)
    ensures SeparatorCount(lines + [Separator]) == SeparatorCount(lines) + 1
  {
    assert (lines + [Separator])[..|lines|] == lines;
  }

  /**
   * `list`: a separator before each story, and one after the last; every line
   * that is not a story is forty `*` characters.
   */
  method List(stories: seq<Api.StoryEntry>) returns (lines: seq<Line>)
    ensures Blocks(lines) == stories
    ensures SeparatorCount(lines) == |stories| + 1
    ensures |lines| == 2 * |stories| + 1
    ensures lines[|lines| - 1] == Separator
    ensures forall k :: 0 <= k < |lines| && lines[k].StoryBlock? ==> k > 0 && lines[k - 1] == Separator
    ensures forall k :: 0 <= k < |lines| && !lines[k].StoryBlock? ==> IsStarLine(lines[k])
  {
    lines := [];
    var i := 0;
    while i < |stories|
      invariant 0 <= i <= |stories|
      invariant |lines| == 2 * i
      invariant Blocks(lines) == stories[..i]
      invariant SeparatorCount(lines) == i
      invariant Layout(lines)
    {
      AppendStory(lines, stories[i]);
      LayoutAppend(lines, [Separator, StoryBlock(stories[i])]);
      assert stories[..i + 1] == stories[..i] + [stories[i]];
      lines := lines + [Separator, StoryBlock(stories[i])];
      i := i + 1;
    }
    AppendSeparator(lines);
    LayoutAppend(lines, [Separator]);
    lines := lines + [Separator];
    assert stories[..i] == stories;
    SeparatorsAreStarLines(lines);
  }

  /** Each story follows a separator, and every other line is the separator. */
  predicate Layout(lines: seq<Line>)
  {
    && (forall k :: 0 <= k < |lines| && lines[k].StoryBlock? ==> k > 0 && lines[k - 1] == Separator)
    && (forall k :: 0 <= k < |lines| && !lines[k].StoryBlock? ==> lines[k] == Separator)
  }

  /** Appending a separator, or a separator and then a story, keeps the layout. */
  lemma LayoutAppend(lines: seq<Line>, more: seq<Line>)
    requires Layout(lines)
    requires more == [Separator] || (|more| == 2 && more[0] == Separator && more[1].StoryBlock?)
    ensures Layout(lines + more)
  {
    var all := lines + more;
    forall k | 0 <= k < |all| && all[k].StoryBlock?
      ensures k > 0 && all[k - 1] == Separator
    {
      if k >= |lines| {
        assert k == |lines| + 1 && all[k - 1] == more[0];
      } else {
        assert all[k] == lines[k] && all[k - 1] == lines[k - 1];
      }
    }
    forall k | 0 <= k < |all| && !all[k].StoryBlock?
      ensures all[k] == Separator
    {
      if k < |lines| {
        assert all[k] == lines[k];
      }
    }
  }

  /** Lines that are all either stories or the separator print only forty-star text. */
  lemma SeparatorsAreStarLines(lines: seq<Line>)
    requires forall k :: 0 <= k < |lines| && !lines[k].StoryBlock? ==> lines[k] == Separator
    ensures forall k :: 0 <= k < |lines| && !lines[k].StoryBlock? ==> IsStarLine(lines[k])
  {
    assert IsStarLine(Separator);
  }
}
