# haitask in Dafny

haitask is a command-line tool. It reads the latest Git commits and asks an AI model for a task payload (title, description, labels). It then creates that task in Jira, Trello or Linear, and remembers the task per commit so it is not created twice.

This project models the decision and normalisation logic around those steps and proves what it promises:

- the prompt built from the commit data, and the validation and cleaning of the AI's JSON reply;
- the retry policy and its bounded retry loop with exponential backoff;
- extraction of an issue key from a commit message: the Jira key pattern, Trello card URLs and short links, and the Linear branch;
- splitting raw `git log` output into a message, a batch and a count;
- the requests the Jira, Trello and Linear clients build, and how they normalise responses and errors. This includes the Jira assignee loop, with its fallback from the assignee endpoint to an issue PUT;
- dispatch by target and by AI provider, the Jira URL builder and the HTTP hint table;
- loading and validating `.haitaskrc`, writing the default config, and checking which environment keys are missing;
- the idempotency state file, read and written through a file-system object.

Everything outside the program is an input:

- A `fetch` response is a value `Http.Response(status, statusText, body)`. A request sequence is a function from the request number to a response.
- `JSON.parse` is a parameter `string -> Json.ParseOutcome`. `JSON.stringify` is a parameter `Json.Value -> string`.
- The environment is a `map<string, string>`.
- `git` output is three strings.
- The AI generators are a function parameter.
- The file system is a `Files.FileSystem` object: a map from path to entry, plus the set of paths a write fails on.
- Sleeping is recorded as a list of delays.

Modules follow the source files. Shared modules:

- `Results`: Option and Result.
- `Strings`: the JavaScript white-space set, `trim`, ASCII case mapping, `split`, `join` and `includes`.
- `Json`: values, property access, truthiness and template-literal conversion.
- `Http`, `Settings` and `Task`.

## Model

| member | source | states |
|---|---|---|
| AiUtils.BuildPrompt | src/ai/utils.js:10-16 | the system prompt is the fixed constant, and the user prompt contains the repository name, the branch and the commit message |
| AiUtils.PromptMentions | src/ai/utils.js:14 | the user prompt template holds the repo, branch and message at their places |
| AiUtils.SystemPromptMentionsJsonAndJira | src/ai/utils.js:12-13 | the system prompt contains "JSON" and "Jira" |
| AiUtils.FirstType | src/ai/utils.js:40 | the alternative found is in the list and prefixes the title; none is found exactly when no alternative prefixes it |
| AiUtils.StripCommitType | src/ai/utils.js:40 | without a commit-type prefix the title is unchanged; with one, the result is what follows the matched type and its colon, with the leading white space removed |
| AiUtils.StripsMatchedType | src/ai/utils.js:40 | whichever commit type a title starts with, in any letter case, the strip removes exactly it, its colon and the white space after it |
| AiUtils.CleanTitle | src/ai/utils.js:39-40 | the title is trimmed, and it is empty exactly when the raw title was all white space |
| AiUtils.ParseTaskPayload | src/ai/utils.js:24-42 | a parse error gives "AI response is not valid JSON: " and the message; a null reply gives the TypeError; a non-string title or description gives its error before the labels are looked at; a labels member that is not an array gives the labels error; success holds exactly for an object with string title and description and an array of labels, and the result is the cleaned title, trimmed description and string labels |
| AiUtils.ParsedPayloadShape | src/ai/utils.js:37-41 | a validated payload has trimmed fields, an empty title only for a blank raw title, and labels that are the filter of the array (in order, by `Json.StringItemsAppend`), holding exactly its string members |
| Json.StringItemsSpec | src/ai/utils.js:37 | a string is kept exactly when it is a member of the array |
| Json.StringItemsAppend | src/ai/utils.js:37 | the filter distributes over concatenation, so the kept labels keep their order and repeats |
| Json.StringItemsSnoc | src/ai/utils.js:37 | one more item adds its string, if it is one, at the end |
| AiUtils.TypePrefixUnique | src/ai/utils.js:40 | two lower-case alternatives cannot both prefix one title |
| AiUtils.OnlyOwnType | src/ai/utils.js:40 | a title starting with `w:` matches alternative `w` and no other |
| AiUtils.CommitTypeStripped | src/ai/utils.js:39-40 | `p:` followed by white space and a trimmed rest becomes the rest, for every spelling `p` whose lower-case form is a commit type |
| AiUtils.PrefixedTitleStripped | src/ai/utils.js:40 | the replace removes exactly the prefix, in any letter case, and the white space after it |
| AiUtils.BareCommitTypeKept | src/ai/utils.js:40 | a title that is only `p:`, in any letter case, keeps the raw title |
| AiDispatch.ProviderName | src/ai/index.js:13 | the names of the three providers |
| AiDispatch.SelectProvider | src/ai/index.js:22-33 | the provider named by the lower-cased setting (default groq), else "Unknown AI provider" naming the supported list |
| AiDispatch.GenerateTaskPayload | src/ai/index.js:21-34 | a known provider's generator is called with the commit data and config; an unknown one gives the selection error |
| AiDispatch.SelectNamedProvider | src/ai/index.js:24-30 | naming a provider selects it, so ProviderName and SelectProvider are inverse |
| AiDispatch.DefaultProviderIsGroq | src/ai/index.js:22 | with no provider configured, groq is selected |
| AiDispatch.SelectIgnoresCase | src/ai/index.js:22 | settings that lower-case alike select the same provider |
| Retry.IsRetryable | src/utils/retry.js:10-22 | false for a falsy error; with a status, true exactly for 429 or 500..599; without one, true exactly for a fetch TypeError or ECONNRESET/ETIMEDOUT/ENOTFOUND |
| Retry.WithDefaults | src/utils/retry.js:6-37 | a missing option takes its default (2, 1000, 2); a given one is kept |
| Retry.WithRetry | src/utils/retry.js:34-50 | at most retries + 1 calls, exactly one when retries is 0; the result is the last call's outcome; every earlier call failed retryably; stopping early means success or a non-retryable error; sleeps happen only between calls, the k-th lasting delayMs * backoff^k |
| Retry.DelayStep | src/utils/retry.js:46 | multiplying the k-th delay by the backoff gives the (k+1)-th, `delayMs * backoff^(k+1)` |
| Constants.HexExactlySpec | src/config/constants.js:8 | the anchored hex matcher accepts exactly the strings of the given length made of hex digits |
| Constants.IsTrelloId | src/config/constants.js:8 | accepted exactly when the string has 24 characters, each a hex digit in either case |
| HttpHints.Hints | src/utils/http-hints.js:5-21 | an entry is non-empty exactly for jira, trello or linear and status 401, 403 or 404 |
| HttpHints.ByTarget | src/utils/http-hints.js:5-21 | one row of the table is non-empty exactly for jira, trello and linear |
| HttpHints.GetHttpHint | src/utils/http-hints.js:28-34 | "" for a missing, zero or sub-400 status, for an unknown target, and for a status without an entry; the table entry otherwise |
| Urls.StripTrailingSlash | src/utils/urls.js:12 | exactly one trailing slash is removed, if there is one |
| Urls.JiraBaseUrl | src/utils/urls.js:12 | the configured base URL wins over `JIRA_BASE_URL`; the chosen base loses its trailing slash if it has one and is otherwise kept |
| Urls.BuildJiraUrl | src/utils/urls.js:11-14 | `<base>/browse/<key>`, or the bare key when there is no base |
| Urls.ConfigBaseWins | src/utils/urls.js:12 | with a configured base, the environment does not affect the URL |
| Urls.BaseWithoutSlash | src/utils/urls.js:12-13 | a base without a trailing slash is used unchanged |
| Urls.OneSlashRemoved | src/utils/urls.js:12 | a base ending in two slashes keeps one of them |
| IssueKey.Run | src/utils/issue-key.js:6 | the run length found is maximal |
| IssueKey.RunIsMaximal | src/utils/issue-key.js:6 | any maximal run is the one found |
| IssueKey.JiraMatchAt | src/utils/issue-key.js:6 | the Jira pattern tried at one position |
| IssueKey.JiraMatchAtSpec | src/utils/issue-key.js:6 | the matcher succeeds at a position with an end exactly when the text there is a whole-word key |
| IssueKey.MatchIsKey | src/utils/issue-key.js:6 | a match found by the matcher is a key standing as a whole word |
| IssueKey.KeyIsMatch | src/utils/issue-key.js:6 | a whole-word key is what the matcher finds at its start, with the greedy runs ending at the key's end |
| IssueKey.NoMatchInside | src/utils/issue-key.js:6 | no key starts strictly inside a match, so matches do not overlap |
| IssueKey.Matches | src/utils/issue-key.js:27 | the matches of the global regex lie at or after the start, in increasing order and without overlap |
| IssueKey.MatchesAreKeys | src/utils/issue-key.js:27 | every match listed is a key standing as a whole word |
| IssueKey.FirstAcceptedSpec | src/utils/issue-key.js:27-30 | the Jira branch returns the leftmost whole-word key that the project key accepts, and none exactly when no such key exists |
| IssueKey.FirstMatchFrom | src/utils/issue-key.js:27 | the first match listed is the leftmost match |
| IssueKey.NoMatchFrom | src/utils/issue-key.js:27 | no match listed means no match in the text |
| IssueKey.FirstTrelloUrl | src/utils/issue-key.js:9-35 | the leftmost card-URL position, and none only when there is none |
| IssueKey.FirstShortLink | src/utils/issue-key.js:10-37 | the leftmost whole-word 8-character alphanumeric link, and none only when there is none |
| IssueKey.TrelloKey | src/utils/issue-key.js:33-38 | the id after the leftmost `trello.com/c/`, else the leftmost short link |
| IssueKey.UrlBeatsShortLink | src/utils/issue-key.js:34-35 | a card URL anywhere in the text wins over every short link |
| IssueKey.FirstLinearKey | src/utils/issue-key.js:40-43 | corrected Linear branch: the first whole-word key |
| IssueKey.LinearLoneKeyIsLost | src/utils/issue-key.js:41-42 | the Linear branch as written finds nothing in a message holding one key, where the corrected one finds it |
| IssueKey.ExtractIssueKey | src/utils/issue-key.js:19-46 | null for a blank message or an unknown target; for each target the result of its branch |
| IssueKey.NormalTarget | src/utils/issue-key.js:23 | "jira" for no target, else the target with its ASCII letters lower-cased; no upper-case letter remains |
| IssueKey.NormalProjectKey | src/utils/issue-key.js:26 | empty exactly for a blank project key; as long as the trimmed key, with no lower-case letter left |
| IssueKey.JiraKey | src/utils/issue-key.js:25-30 | a result is a Jira-style key that the normalised project key accepts |
| IssueKey.LinearKeyAsWritten | src/utils/issue-key.js:40-43 | the as-written Linear branch answers exactly when the text holds two matches, and then with a Jira-style key |
| IssueKey.JiraKeyFound | src/utils/issue-key.js:25-30 | a Jira result is a whole-word key of the text that the project key accepts, with no accepted key before it |
| IssueKey.JiraKeyNone | src/utils/issue-key.js:25-30 | no result only when the project key accepts no whole-word key |
| IssueKey.JiraResultHasProjectPrefix | src/utils/issue-key.js:26-28 | with a project key, the result starts with the upper-cased key and a dash |
| Commit.RequestedCount | src/git/commit.js:27 | at least 1, `n` itself when it is positive, else 1 |
| Commit.TrimmedNonEmpty | src/git/commit.js:39 | the segments kept are non-empty and trimmed, and no more than there are segments |
| Commit.TrimmedNonEmptyAppend | src/git/commit.js:39 | the trim-and-filter distributes over concatenation, so the kept segments stand in log order |
| Commit.TrimmedNonEmptySingle | src/git/commit.js:39 | one segment is kept, trimmed, exactly when it is not blank |
| Commit.Parts | src/git/commit.js:39 | `.slice(0, num)`: a prefix of the kept segments, as long as `num` or all of them when there are fewer |
| Commit.Basename | src/git/commit.js:37 | the slash-free suffix of the path without its trailing slashes that is either all of it or follows a slash |
| Commit.GetLatestCommitsData | src/git/commit.js:26-42 | the count is the number of kept segments, capped at the requested number; the branch and repo name are trimmed, and the repo name is empty for an empty root |
| Commit.GetLatestCommitData | src/git/commit.js:17-19 | one commit exactly when some segment is not blank; the message is then the first kept segment in log order, and the trimmed log otherwise |
| Commit.PartsAreLogMessages | src/git/commit.js:39 | every kept message is non-empty, trimmed, free of NUL and occurs in the log output |
| Commit.TrimmedNonEmptyOrigin | src/git/commit.js:39 | each kept segment is the trimmed form of some segment |
| Commit.TrimmedNonEmptyEmpty | src/git/commit.js:39 | nothing is kept exactly when every segment is blank |
| Commit.MessageShape | src/git/commit.js:40 | with several commits, the message is the kept messages joined by the batch separator; with one, that message; with none, the trimmed log |
| Commit.NoCommitsMeansBlankLog | src/git/commit.js:39-41 | the count is 0 exactly when every NUL-separated segment of the log is blank |
| JiraClient.PlainTextToAdf | src/jira/client.js:9-15 | a version-1 document with at least one paragraph, none containing a newline; the single empty paragraph exactly when the text is blank |
| JiraClient.AdfKeepsText | src/jira/client.js:10-13 | the paragraphs, concatenated, are the trimmed text without its newlines; for non-blank text the trimmed text is the paragraph texts in order with a non-empty run of newlines between each two, so the paragraphs are its maximal newline-free pieces |
| Strings.JoinRuns | src/jira/client.js:10 | pieces joined by a character are their non-empty members in order, separated by non-empty runs of that character, with a run (maybe empty) before and after; without a non-empty member the join is all that character |
| JiraClient.GetAssigneeAccountId | src/jira/client.js:73-78 | the trimmed configured id, else the trimmed `JIRA_ACCOUNT_ID` |
| JiraClient.AssignCandidates | src/jira/client.js:31-34 | the id first, and a second candidate exactly when the id contains a colon |
| JiraClient.SecondCandidateIsTail | src/jira/client.js:33 | the second candidate is the colon-free part that follows the last colon of the id |
| JiraClient.AssignFailureShape | src/jira/client.js:63-66 | a failed assignment's message starts with "Assign failed. " and ends with the advice on where to find the account id |
| JiraClient.ErrorText | src/jira/client.js:48-59 | the last error reads "assignee endpoint <status>: <detail>" after a refused endpoint request and "assignee endpoint: <body>; issue PUT <status>: <detail>" after a refused PUT |
| JiraClient.TryCandidate | src/jira/client.js:38-60 | skipped exactly when the id is blank; otherwise the assignee request comes first and an ok answer accepts it; after a refusal the issue PUT follows exactly when the status is 400 or 404, and its answer decides; a refusal keeps the failed responses as the last error |
| JiraClient.AssignFrom | src/jira/client.js:37-61 | the loop over the candidates: a blank one is skipped, an accepted one ends it with success, a refused one adds its requests and hands on its error; with none left it fails |
| JiraClient.AssignIssue | src/jira/client.js:24-67 | `ok` and the requests sent are those of the specification `AssignFrom` over the candidates; the message is empty on success and built from the last error otherwise |
| JiraClient.StepRefused | src/jira/client.js:37-61 | a refused candidate contributes its requests and hands on its error |
| JiraClient.SkipBlank | src/jira/client.js:38 | a blank candidate sends nothing and changes nothing |
| JiraClient.AssignOkMeansLastAccepted | src/jira/client.js:37-57 | a successful assignment ends at its first accepted request |
| JiraClient.AssignFailedMessage | src/jira/client.js:63-66 | a failed assignment reports "Assign failed." and every request it sent was refused |
| JiraClient.AssignCallsForCandidates | src/jira/client.js:37-45 | every request is for a non-blank candidate |
| JiraClient.AssignCallsBound | src/jira/client.js:37-60 | at most two requests per candidate |
| JiraClient.AssignOkIffAnswered | src/jira/client.js:37-62 | the assignment succeeds exactly when one of the requests it sent was answered ok |
| JiraClient.FirstCandidateTried | src/jira/client.js:37-45 | the first non-blank candidate is tried first with the assignee endpoint, and an ok answer ends the assignment with that single request |
| JiraClient.FailureTriedEveryCandidate | src/jira/client.js:37-62 | a failed assignment sent the assignee request for every non-blank candidate |
| JiraClient.IssuePutOnlyAfterRefusal | src/jira/client.js:50-56 | each issue PUT directly follows the assignee request for the same id, which answered 400 or 404 |
| JiraClient.BuildFields | src/jira/client.js:92-102 | summary is the trimmed title or "Untitled"; project key defaults to "PROJ" and issue type to "Task"; the description is the ADF document; labels are the string members, or `[]` for a non-array |
| JiraClient.CreateIssue | src/jira/client.js:83-128 | missing credentials, an error status, a parse error and a missing key each give their error; with an assignee the assignment loop runs and its failure gives "Issue … created but assign failed."; otherwise `{ key, self }` |
| TrelloClient.LabelIds | src/trello/client.js:40 | every id kept is non-empty and trimmed |
| TrelloClient.LabelIdsSpec | src/trello/client.js:40 | an id is kept exactly when it is the trimmed form of a non-blank string member |
| TrelloClient.LabelIdsAppend | src/trello/client.js:40 | the filter-and-trim distributes over concatenation, so the ids keep the array's order and repeats |
| TrelloClient.LabelIdsSnoc | src/trello/client.js:40 | one more item adds its trimmed form at the end exactly when it is a non-blank string |
| TrelloClient.MemberId | src/trello/client.js:35 | the trimmed configured member, else the trimmed `TRELLO_MEMBER_ID` |
| TrelloClient.BuildBody | src/trello/client.js:29-41 | listId, name (or "Untitled") and desc trimmed; `idMembers` present exactly when there is a member; `idLabels` present exactly for a non-empty array |
| TrelloClient.CardOf | src/trello/client.js:55-59 | a null card is the TypeError; otherwise the key is a truthy shortLink, else id; the url is a truthy shortUrl, else a truthy url, else the card link built from a truthy key, else "" |
| TrelloClient.CreateTask | src/trello/client.js:14-60 | missing credentials and a missing list id give their errors and send nothing; otherwise the body posted is `BuildBody`, and an error status, a parse error or the card of the reply follow |
| TrelloClient.CreatedCardFromResponse | src/trello/client.js:50-59 | a created card comes from an ok response that parsed to a non-null card, after the body was posted |
| TrelloClient.ShortLinkIsKey | src/trello/client.js:56-57 | a non-empty short link is the key of any card holding it, and builds the card URL when the card has neither shortUrl nor url |
| TrelloClient.EmptyCard | src/trello/client.js:56-57 | a card with no fields has no key and an empty URL |
| LinearClient.First | src/linear/client.js:66 | `?.[0]` on an array is its first item; on undefined it is undefined |
| LinearClient.FirstErrorMessage | src/linear/client.js:66 | `data?.errors?.[0]?.message`: present only when `errors` and its first item are, and the first array item's `message` member otherwise |
| LinearClient.IssueOf | src/linear/client.js:64 | `data?.data?.issueCreate?.issue`: present exactly when each link of the path is an object holding the next member, and then that member |
| LinearClient.FoundIssue | src/linear/client.js:113 | `dataIssue?.data?.issue`: present exactly when `data` is an object holding `issue`, and then that member |
| LinearClient.BuildInput | src/linear/client.js:30-53 | team id trimmed; title trimmed or "Untitled"; description present exactly when the trimmed description is non-empty |
| LinearClient.CreatedOf | src/linear/client.js:63-73 | success exactly when the reply holds a truthy issue; then the key is a truthy identifier, else id, and the url a truthy url, else the issue link built from a truthy key, else ""; otherwise "Linear API: " and the first error message when truthy, else the serialised reply |
| LinearClient.CreateTask | src/linear/client.js:22-74 | a blank API key and a blank team id give their errors and send nothing; otherwise the input sent is `BuildInput`, and an error status, a parse error or the normalised reply follow |
| LinearClient.IdentifierIsKey | src/linear/client.js:70-71 | an issue with a non-empty identifier is keyed by it whatever else the reply holds, and without a url its link is built from it |
| LinearClient.GraphQlErrorReported | src/linear/client.js:65-67 | without an issue, a non-empty message of the first item of any `errors` array follows "Linear API: " |
| LinearClient.SerialisedReplyReported | src/linear/client.js:65-67 | without an issue and without `errors`, the serialised reply follows "Linear API: " |
| LinearClient.CommentBody | src/linear/client.js:124 | the trimmed text, or "(no message)" when it is blank |
| LinearClient.CommentUrl | src/linear/client.js:131 | the issue's truthy url, else the issue link built from the identifier |
| LinearClient.AddComment | src/linear/client.js:97-133 | a blank API key, a blank identifier, an error status, a parse error and a missing issue ("Linear: <message>", else "Issue not found") each give their error and send nothing; for a found issue the comment is sent with its id and the body; then an error status ("Linear comment API"), a parse error or a first GraphQL error ("Linear comment: <message>") gives its error, and otherwise the trimmed identifier is the key and the issue url, else the built link, the url |
| LinearClient.CommentAddedWhen | src/linear/client.js:97-132 | success exactly when the key is set, the identifier is not blank, the lookup found the issue and the comment mutation was answered ok without a GraphQL error; the key is then the trimmed identifier and the URL the issue's or one built from the identifier |
| Backend.Target | src/backend/index.js:22 | the lower-cased target, "jira" when none is set |
| Backend.CreateTask | src/backend/index.js:21-39 | an unknown target gives "Unknown target"; trello gives "not implemented"; for jira each failure of the Jira client (credentials, status, parse, missing key, failed assignment) is passed on, and a created issue with a key, no assignee or a successful assignment gives that key with the Jira URL |
| Backend.DefaultTargetIsJira | src/backend/index.js:22 | with no target, jira is used |
| Backend.TargetIgnoresCase | src/backend/index.js:22 | any casing of "jira" selects Jira |
| Backend.UnknownTargetNamed | src/backend/index.js:24-26 | the error names the target and the list "jira, trello" |
| Files.Resolve | src/config/load.js:20-22 | absolute paths are kept; relative ones go under the working directory |
| Files.ReadEntry | src/config/load.js:24-33 | none exactly for a missing path, and text exactly for a readable file |
| Files.FileSystem.Write | src/utils/idempotency.js:41-45 | a write into a read-only path fails and changes nothing; otherwise the path holds the new text and nothing else changes |
| ConfigLoad.ConfigFilePath | src/config/load.js:20-22 | without a path, `.haitaskrc` under the working directory; an absolute path as given; a relative one under the working directory |
| ConfigLoad.MissingSectionsSpec | src/config/load.js:10-42 | a required key is listed exactly when its section is missing or not an object |
| ConfigLoad.NormalTarget | src/config/load.js:47 | "jira" for a falsy target; the lower-cased string otherwise; an error exactly for a truthy non-string |
| ConfigLoad.Validate | src/config/load.js:42-55 | a null config, missing sections, a non-string target, an unknown target and a missing target section each give their error, in that order; an object with both sections, an accepted target and its section is accepted with `target` rewritten; success implies these conditions |
| ConfigLoad.LoadConfig | src/config/load.js:19-56 | a missing file, an unreadable file and invalid JSON each give their error naming the path; otherwise the validation result |
| ConfigLoad.LoadedConfigShape | src/config/load.js:42-55 | a loaded config has ai and rules, and a target in jira/trello whose section is an object |
| ConfigLoad.OnlyTargetRewritten | src/config/load.js:47-55 | every member other than `target` is as read from the file |
| ConfigLoad.BothSectionsListed | src/config/load.js:42-44 | when both sections are missing, `ai` is listed before `rules` |
| ConfigLoad.LinearRejected | src/config/load.js:11-49 | "linear" is rejected by the loader's own target list |
| ConfigInit.CreateDefaultConfigFile | src/config/init.js:33-40 | an existing file gives created false and nothing changes; otherwise the default config is written and created is true, so a second call gives false; a failing write is an error |
| ConfigInit.DefaultConfigLoads | src/config/init.js:9-23 | the default config, read back, passes the loader with target jira |
| ConfigInit.DefaultRcValid | src/config/load.js:42-56 | the default config passes the checks and gains `"target": "jira"` |
| ConfigInit.AiKeyFor | src/config/init.js:54-60 | a key exactly for openai, deepseek or groq in any case, never one of the required keys |
| ConfigInit.StillMissingSpec | src/config/init.js:66 | a key is kept exactly when it is listed and unset or blank |
| ConfigInit.StillMissingAppend | src/config/init.js:66 | filtering distributes over concatenation, so order is kept |
| ConfigInit.StillMissingDistinct | src/config/init.js:66 | filtering keeps distinct keys distinct |
| ConfigInit.ValidateEnv | src/config/init.js:49-68 | valid exactly when nothing is missing; a key is missing exactly when it is required or the provider's key, and blank; the required keys come first, the AI key at most once at the end |
| ConfigInit.MissingKeys | src/config/init.js:60-66 | filtering the required keys plus the unset AI key leaves exactly the blank required keys, then the AI key; each key at most once |
| Idempotency.StatePath | src/utils/idempotency.js:9-13 | `<root>/.git/haitask-state.json` |
| Idempotency.StatePathInjective | src/utils/idempotency.js:11-13 | distinct normalised roots (no trailing slash, no empty, `.` or `..` segment) have distinct state files |
| Idempotency.ReadFrom | src/utils/idempotency.js:20-31 | null for a blank root, a missing or unreadable file, bad JSON or a non-object; a readable file that parses to an object or array gives that value |
| Idempotency.WriteTo | src/utils/idempotency.js:38-46 | nothing changes when the guard fails or the write fails; no other file changes |
| Idempotency.ReadState | src/utils/idempotency.js:20-31 | the method returns what ReadFrom states |
| Idempotency.WriteState | src/utils/idempotency.js:38-46 | the store becomes what WriteTo states, so write errors are swallowed |
| Idempotency.WriteThenRead | src/utils/idempotency.js:26-42 | a successful write followed by a read of the same root returns the record written |
| Idempotency.WriteKeepsOtherRoots | src/utils/idempotency.js:11-42 | a write for one normalised root does not change what another normalised root reads |

## Findings

| source | as written | input that shows it | evidently intended | confidence | as-written member | corrected member |
|---|---|---|---|---|---|---|
| src/utils/issue-key.js:40-42 | `text.match(JIRA_KEY_REGEX)` with the global flag returns all whole matches, so `match[1]` is the second key, or undefined | the message "ENG-1" gives undefined: the match array is ["ENG-1"] | the first key, "ENG-1" (the doc comment says "Extract first issue key") | high, not executed | IssueKey.LinearLoneKeyIsLost | IssueKey.FirstLinearKey |

`IssueKey.ExtractIssueKey` keeps the Linear branch as written (`IssueKey.LinearKeyAsWritten`), because that is what the program does. `IssueKey.FirstLinearKey` is the corrected definition, proved to return the first whole-word key.

Where the code and its tests or documentation disagree, the model follows the code:

- The AI payload carries no priority.
- The prompt is the same for every target.
- The loader accepts only jira and trello, although the shared constant also lists linear.
- The backend dispatches only to Jira.

## Left out

- Network, processes, timers and the file system are not modelled, because they are I/O. Their results are inputs, as listed above.
- The concurrency of the requests is not modelled. `Promise.all` in the commit step becomes three independent inputs.
- The text of the Jira, Trello and Linear requests is not modelled, because it is library code. This covers the URLs, headers, Base64 authorisation, `encodeURIComponent`, `URLSearchParams` and the GraphQL query text. The model states which requests are sent and with which field values: the Jira fields, the Trello card body and the Linear issue input are returned next to the result.
- Full JSON parsing and serialisation are parameters. Object members form a map, so member order is not modelled.
- Numbers are integers. NaN, Infinity and fractions are not modelled, and `Number(n)` conversion is an input.
- Case mapping covers ASCII letters only. `toLowerCase` and `toUpperCase` on other letters are not modelled.
- `path.resolve` and `path.join` are modelled without normalising `.` or `..` segments or repeated slashes.
- StatePathInjective: stated only for normalised roots (`Idempotency.NormalRoot`), because `join` maps roots such as "/repo" and "/repo/" to one state file, which the model's concatenation does not; WriteKeepsOtherRoots carries the same restriction.
- ExtractIssueKey: `None` stands for both `null` and `undefined`. The program returns `undefined` from the Linear branch when the message holds exactly one key, and `null` in the other no-key cases.
- Configuration strings seen by the clients are strings, with "" for absent. A config value of another JSON type is not modelled there. The loader itself works on JSON values.
- ConfigLoad.NormalTarget: the TypeError for a truthy non-string target carries a fixed message. The exact wording depends on the JavaScript engine.
- The TypeErrors for reading a member of `null` (a null AI reply, a null Trello card, a null config) carry V8's wording. Other engines word them differently.
- ConfigInit.ValidateEnv: provider names that are inherited object properties are not modelled. An example is "constructor", which `aiKeys[provider]` would find on the prototype.
- ConfigInit.CreateDefaultConfigFile: the indented text that `JSON.stringify(DEFAULT_RC, null, 2)` produces is a parameter.
- JiraClient.AssignIssue: the last error is kept as the failed responses and rendered into the message by `ErrorText`. The string variable of the loop is not used.
- TrelloClient.BuildBody: the body is built as a value, not as an object whose members are added in place. Member order is not modelled.
- The Linear and Trello adapters are not called by the backend, because the backend does not call them either.
- The OpenAI, Deepseek and Groq wrappers are not modelled, because they are thin HTTP calls. The provider dispatch passes them as the `generate` parameter.
- The CLI commands, console output, the `.env` loader and the pipeline stub are not modelled. They are wiring with no logic of their own.
