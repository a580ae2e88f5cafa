# pivotal_tracker_cli, modelled in Dafny

`pivotal_tracker_cli` is a command-line client for the Pivotal Tracker REST
API. This project models the deterministic logic inside it and proves
properties of that model:

- **Owner-name resolution** (`HashManager`, from `lib/hash_manager.rb`). A
  story's owner ids become the display string `"A, B"`, or `"unassigned"` when
  the story has no owners. The user directory is an ordered sequence of
  `(username, {id, name})` pairs, because Ruby hashes keep insertion order and
  the lookup stops at the first entry whose id matches. The lookup
  `find_name_given_id` is a method with a loop. A recursive first-match
  function specifies it.
- **Gateway result shaping** (`Api`, from `lib/api.rb`). Each HTTP response is a
  value `Response(success, body, error)`, where `error` is what
  `dig('error')` reads. The membership loop that fills `member_map` is a method
  with a loop. The other operations are pure functions: the story lookup, the
  update confirmation `"Story #<id> successfully <state>."` with its
  `'Failed to reach API.'` fallback, the search query `owner:"<username>"`
  and the story-list reshaping.
- **Markdown escapes and status colours** (`StringUtilities`, from
  `lib/string_utilities.rb`). `Replace` models one `gsub` with a lazy
  `(.*?)` group: it scans left to right and does not cross a newline. A
  `**X**` pair becomes bold and then a `_X_` pair becomes underline. The
  `DISABLE_MARKDOWN` test is a boolean parameter. `colorize_status` returns a
  colour tag around the unchanged text.
- **User cache** (`UserCache`, from `lib/user_cache.rb`). A `Cache` class holds
  three fields. `config` is the configuration hash. `persisted` is the content
  of the configuration file. `fetches` counts membership requests. Three
  small client methods check the behaviour: `StartTwice` builds a second
  `Cache` from the file the first one wrote, as a second process start would;
  `FailedFetchRetries` and `RefreshOverwrites` work on one `Cache`.
- **Command decisions** (`Client`, from `lib/pivotal_tracker_cli.rb`). This
  covers the keyword table, the `update` decision and the separator layout of
  `list`. The decision records the requests it makes as `Call` values, so the
  model can state which requests each early exit skips.

Where the files disagree, the model chooses as follows:

- `api.rb` builds bare-integer member maps (`lib/api.rb:15`). `Api` and
  `UserCache` keep that shape.
- `hash_manager.rb` reads `{id, name}` values (`lib/hash_manager.rb:15-16`).
  `HashManager` keeps that shape.
- `update_story` passes an owner list as a fifth argument
  (`lib/pivotal_tracker_cli.rb:143`). The model follows the four-parameter
  `update_story_state` of `lib/api.rb:35` instead.
- `get_current_stories_for_user` is called with `@usernames`
  (`lib/pivotal_tracker_cli.rb:135`), the list read from the configuration at
  line 23. Interpolating a list at `lib/api.rb:57` gives `owner:"["u1", "u2"]"`,
  which is neither one username nor an OR query. `Api.SearchQuery` follows
  api.rb's single-string parameter.
- `format_story` calls methods on a story object (`story.id` at
  `lib/pivotal_tracker_cli.rb:94`), but `get_current_stories_for_user` returns
  hashes (`{story_id:, story_name:, status:}` at `lib/api.rb:64-68`, or
  `[{error: …}]` at `lib/api.rb:71`). A Hash has no `id` method, so `list` as
  shown prints one separator and then raises `NoMethodError` for any non-empty
  result; only an empty result prints the whole layout. `Client.List` follows
  the loop's layout (`lib/pivotal_tracker_cli.rb:39-43`) for entries that
  `format_story` can print.

An owner id missing from the directory is not dropped. `find_name_given_id`
starts from `name = ''` (`lib/hash_manager.rb:12,21`), so that owner's slot is
empty and its separator stays (`"A, "`).

## Model

| member | source | states |
|---|---|---|
| `HashManager.FirstMatch` | lib/hash_manager.rb:14-19 | the index found holds the owner id, and no earlier entry does; when there is none, no entry holds the id |
| `HashManager.FindNameGivenId` | lib/hash_manager.rb:11-22 | returns the name of the first entry in iteration order whose id matches, or '' when none matches |
| `HashManager.Names` | lib/hash_manager.rb:6-8 | one name per owner id, in input order, each the directory lookup of that id |
| `HashManager.OwnerNames` | lib/hash_manager.rb:3-9 | an empty owner list yields exactly "unassigned"; a single owner yields just that owner's name, with no separator |
| `HashManager.OwnerNamesAppend` | lib/hash_manager.rb:6-8 | one more owner appends ", " and that owner's name to the previous string |
| `HashManager.OwnerNamesMissing` | lib/hash_manager.rb:11-21 | an owner absent from the directory adds ", " and an empty name |
| `HashManager.OwnerNamesParts` | lib/hash_manager.rb:6-8 | when names hold no comma, the result splits at ", " into exactly one part per owner id, in order |
| `Api.GetAllUsersForProject` | lib/api.rb:3-19 | nil exactly when the response failed; otherwise the map built record by record |
| `Api.MemberMapKeys` | lib/api.rb:12-18 | the member map has one key per username in the records and no other |
| `Api.MemberMapLastWins` | lib/api.rb:14-16 | each username maps to the id of its last record, so a later duplicate overwrites an earlier one |
| `Api.GetStoryById` | lib/api.rb:28-32 | success yields the story's type; failure yields the body's error, or 'Failed to reach API.' when it has none |
| `Api.UpdateStoryState` | lib/api.rb:46-50 | success yields "Story #<id> successfully <state>."; failure yields the body's error, or the fallback text |
| `Api.ConfirmationRoundTrip` | lib/api.rb:47 | the confirmation can be parsed back into the story id and the state, for any id (spaces included) and any one-word state |
| `Api.SearchQuery` | lib/api.rb:57 | the query owner:"<username>" gives back exactly the username when read back |
| `Api.Summarize` | lib/api.rb:63-69 | one summary per story, in order, carrying its id, name and current state |
| `Api.GetCurrentStoriesForUser` | lib/api.rb:62-72 | success gives a list of the same length and order as the stories; failure gives a one-element list holding the error |
| `Api.SearchFailureIsMarked` | lib/api.rb:62-72 | the list contains an error entry if and only if the search failed |
| `StringUtilities.CloseAt` | lib/string_utilities.rb:8 | the closing delimiter found lies inside the text, at the offset returned |
| `StringUtilities.CloseAtIsLeast` | lib/string_utilities.rb:8-9 | the match is the shortest one: no earlier closing delimiter exists and no newline comes before it; when there is no match, no delimiter occurs before the first newline |
| `StringUtilities.Replace` | lib/string_utilities.rb:8-9 | a first character that cannot open the delimiter is copied to the front of the result |
| `StringUtilities.CloseAtExtend` | lib/string_utilities.rb:8 | a closing delimiter already found stays the one found when more text follows |
| `StringUtilities.CloseAtNewline` | lib/string_utilities.rb:8 | a delimiter with no closing partner before a newline finds none after it either |
| `StringUtilities.ReplaceLines` | lib/string_utilities.rb:8-9 | a pass over two lines equals the pass over each line joined by the newline: no pair crosses a line break |
| `StringUtilities.Embiggen` | lib/string_utilities.rb:4-5 | with markdown disabled, the input is returned unchanged |
| `StringUtilities.ReplaceAbsent` | lib/string_utilities.rb:8-9 | text without the delimiter is left unchanged by a pass |
| `StringUtilities.ReplaceWithoutDelimiterChar` | lib/string_utilities.rb:8-9 | text that never contains the delimiter's first character is left unchanged |
| `StringUtilities.EmbiggenPlain` | lib/string_utilities.rb:7-9 | input with no `**` and no `_` comes back unchanged |
| `StringUtilities.ReplaceTrailing` | lib/string_utilities.rb:8-9 | a delimiter ending text that holds no other delimiter is left as it is |
| `StringUtilities.ReplaceTrailingLastLine` | lib/string_utilities.rb:8-9 | a delimiter ending a last line that holds no other delimiter is left as it is, whatever the earlier lines hold; the earlier lines are rewritten on their own |
| `StringUtilities.ReplaceRoundTrip` | lib/string_utilities.rb:8-9 | a pass loses no text: putting the delimiter back for each escape code recovers an escape-free input |
| `StringUtilities.BoldExample` | lib/string_utilities.rb:7-9 | "**THIS** IS" becomes ESC[1m THIS ESC[0m followed by " IS" |
| `StringUtilities.ColorizeStatus` | lib/string_utilities.rb:12-29 | rejected, accepted, delivered, finished and started get red, green, cyan, yellow and magenta, each if and only if; every other state, unstarted included, stays plain; the visible text always equals the input |
| `UserCache.Stored` | lib/user_cache.rb:9-11 | a stored fetch result is truthy exactly when the fetch returned a map, and it holds that map |
| `UserCache.Cache.constructor` | lib/pivotal_tracker_cli.rb:19 | the configuration starts as the loaded file, with no fetch made |
| `UserCache.Cache.RebuildUserCache` | lib/user_cache.rb:8-18 | always fetches once and stores the result, nil included, under the cache key only; the file then equals the configuration |
| `UserCache.Cache.BuildOrAssignUserCache` | lib/user_cache.rb:4-6 | a truthy cached value is returned with no fetch and no write; otherwise a rebuild happens |
| `UserCache.StartTwice` | lib/user_cache.rb:4-17 | after a first start fetches and persists, a second start from the file makes no request and gets the same map |
| `UserCache.FailedFetchRetries` | lib/user_cache.rb:5-11 | a failed fetch stores nil, so the next lookup fetches again |
| `UserCache.RefreshOverwrites` | lib/pivotal_tracker_cli.rb:68-70 | refresh refetches even when a cache exists, overwrites the cache key and keeps every other key |
| `Client.StoryStatusesTable` | lib/pivotal_tracker_cli.rb:25-30 | the table's keys are exactly unstart, start, deliver and finish; only finish has two target states; the usage message of line 75 names every key |
| `Client.Decide` | lib/pivotal_tracker_cli.rb:74-90 | usage if and only if the keyword is unknown; not-found if and only if it is known and the story is nil; unstart, start and deliver map to their states; finish is accepted for a chore and finished otherwise |
| `Client.UpdateStateFromTable` | lib/pivotal_tracker_cli.rb:25-30 | every target state comes from the keyword's entry in the table |
| `Client.ValidateAndUpdateStory` | lib/pivotal_tracker_cli.rb:74-90 | one line is printed; no request is made exactly when the keyword is unknown; the first request is the fetch of that story; every request names that story; exactly one update is made when the keyword is known and the story exists, and none otherwise |
| `Client.UnknownKeywordMakesNoCall` | lib/pivotal_tracker_cli.rb:75 | an unknown keyword prints the usage message and makes no fetch and no update |
| `Client.MissingStoryMakesNoUpdate` | lib/pivotal_tracker_cli.rb:77-79 | a nil story prints the not-found message after the single fetch, and no update is made |
| `Client.ValidCommandUpdatesOnce` | lib/pivotal_tracker_cli.rb:81-89 | a valid command makes exactly one update, to the decided state, and prints its reply verbatim |
| `Client.FinishDependsOnType` | lib/pivotal_tracker_cli.rb:83-88 | finish requests accepted for a chore and finished for any other type |
| `Client.List` | lib/pivotal_tracker_cli.rb:38-44 | n stories print n+1 separators: one before each story and one after the last, with the stories in order; every line that is not a story is exactly forty `*` characters |

## Left out

- `Api.GetAllUsersForProject`, `Api.GetStoryById`, `Api.UpdateStoryState`, `Api.GetCurrentStoriesForUser`: the model assumes every response body is a JSON object of the expected shape. The source raises `NoMethodError` otherwise. On failure, a nil body (empty response) or a String body (an HTML error page) makes `dig('error')` raise at `lib/api.rb:31`, `:49` and `:71`, so `'Failed to reach API.'` is reached only for an object without an `error` key. On success, `.map` (`:14`), `['story_type']` (`:29`) and `['stories']['stories']` (`:63`) raise on other shapes. The model has no crash outcome.
- HTTP transport: HTTParty calls, URLs, headers and the request body. Each operation receives its parsed response as a value.
- JSON nesting: the search body `parsed_response['stories']['stories']` is given directly as the list of stories.
- Thor dispatch and `desc`, and `initialize`'s `YAML.load_file` of `~/.pt`. The loaded configuration is a constructor parameter.
- The Client's fields (`@api_token`, `@project_id`, `@usernames`, `@username_to_user_id_map`): they are never reassigned after `initialize`, so the model passes what they hold as parameters instead of using a class. `@config` is the exception: `refresh` passes it to `rebuild_user_cache`, which changes its contents in place (`lib/user_cache.rb:11`). The `config` field of `UserCache.Cache` models that hash.
- YAML serialisation and `File.open` in `rebuild_user_cache`: the file is the `persisted` field, holding the configuration itself.
- `format_story`, `show` and the `colorize` gem's ANSI codes: one formatted story is one `StoryBlock` line in `list`.
- `wrap`: its output depends on Ruby regex backtracking for `.{1,width}(\s+|\Z)`.
- `backlog`, `get_backlog` and `get_user_ids_from_usernames`: they delegate to `Api.get_backlog_for_project` and `UserCache.get_user_ids_from_usernames` (`lib/pivotal_tracker_cli.rb:131`, `:151`). Neither method is defined in `lib/api.rb` or `lib/user_cache.rb`, so there is no behaviour to follow.
- The owner-id list sent with a state update: it comes from `get_user_ids_from_usernames`, which is not part of this model.
- How the fetched story reaches the `update` decision: the fetch is modelled as an optional story type, and `NotFound` stands for a nil fetch. `get_story_by_id` as written never returns nil: both of its results are hashes, and a hash is truthy in Ruby. So with those shapes a failed fetch passes the nil check, `unstart`, `start` and `deliver` still send the update request, and `finish` fails on `story_type`. `finish` fails on a successful `{type: …}` hash too, because a Hash has no `story_type` method. The model covers none of these crashes. It follows the decision's own branches for a story object that answers `story_type`.
- The `DISABLE_MARKDOWN` environment lookup: it is the boolean parameter of `Embiggen`.
- `HashManager` works on values, so "the directory is not modified" holds by construction rather than as a stated property.
- `StringUtilities.ReplaceTrailing`: a trailing delimiter preceded on its own line by a matched pair (`**a** b**`) is not covered; the lemmas cover a last line holding no other delimiter, after any earlier lines.
- `StringUtilities.ReplaceRoundTrip`: stated for one pass at a time. After both passes the two kinds of span share one reset code, so the combined rewriting cannot be undone.
