# github-clubhouse-importer, modelled in Dafny

The importer is a one-shot command-line tool that copies GitHub issues
carrying a given label into a Clubhouse project as stories. This project
models its logic as pure functions over immutable datatypes and proves what
that logic promises:

- **Classifier** (`classifier.dfy`): `getStoryType` maps an issue's labels to
  `bug`, `chore` or `feature`. A label whose name contains `bug` wins over
  one containing `chore`, and `feature` is the default.
- **Validation** (`validation.dfy`): `validateOptions` becomes a function from
  the parsed flags to the list of violations, one per failed check, in the
  order the messages are logged. The decision to exit with status 1 is a
  separate function, and it exits exactly when that list is non-empty.
- **SearchQuery** (`search_query.dfy`): the GitHub search query built in
  `fetchGithubIssues`, with the fixed organisation `Datasembly` and the fixed
  filter `state:open`. A parser reads a query back, which gives a
  round-trip property.
- **Importer** (`importer.dfy`): `importIssuesToClubhouse` maps each issue to a
  story-creation request and counts the requests that succeeded. The remote
  calls are inputs here: the project lookup is an `Option<Project>`, and each
  creation request's settlement is an `Outcome`.
- `strings.dfy` holds `String.prototype.includes`, a first-index search and
  ASCII lower-casing. `wrappers.dfy` holds `Option`.

Three behaviours of the code deserve a note:

- The query always says `state:open`. The help text describes `--state` as
  the "Github issue state to import" (src/index.js:15), and src/ghch.js:107
  validates that flag, yet src/ghch.js:15 hard-codes `state:open`. The model
  follows the code: the flag is validated and then ignored.
- When the project lookup fails, the import resolves to nothing rather than
  to a count. It then logs a message naming the project id.
- The per-story failure handler reads `issue.number`, and `issue` is not in
  scope there. Evaluating that message throws a `ReferenceError` before
  anything is logged. The `reflect` wrapper absorbs the rejection, so a
  failed request is still just not counted and the batch carries on. The
  model keeps that counting behaviour and has no diagnostic text, so the
  issue number is not part of the modelled issue record.

## Model

| member | source | states |
|---|---|---|
| Strings.Contains | src/ghch.js:123-124 | `includes` is true exactly when the word occurs at some position of the name |
| Strings.ToLowerMatchesWord | src/ghch.js:107 | lower-casing a string gives a lower-case word exactly when each character is that word's letter or its capital |
| Classifier.Find | src/ghch.js:123-124 | `find` returns nothing exactly when no label name contains the word; otherwise it returns the first label that does |
| Classifier.GetStoryType | src/ghch.js:122-126 | bug iff some label name contains "bug"; chore iff none contains "bug" and some contains "chore"; feature iff neither, so the result is always one of the three |
| Classifier.BugWins | src/ghch.js:123 | a label containing "bug" anywhere in the list makes a bug, whatever the other labels (chore ones included) |
| Classifier.BugIsMonotone | src/ghch.js:123 | adding labels before or after never turns a bug into anything else |
| Classifier.StoryTypeIgnoresOrder | src/ghch.js:122-126 | two label lists holding the same labels, in any order and with any repetitions, classify alike |
| Classifier.BugAndDefaultExamples | src/ghch.js:122-126 | ["bug","p1"] and ["bug","chore"] are bugs; no labels is a feature |
| Classifier.ChoreExample | src/ghch.js:124 | ["chore"] is a chore |
| Classifier.FeatureExample | src/ghch.js:125 | ["enhancement"] is a feature |
| Classifier.CaseSensitiveExample | src/ghch.js:123 | ["Bug"] is a feature: the substring test is case-sensitive |
| Validation.Validate | src/ghch.js:78-114 | a violation is listed iff its check fails, each at most once, in the order github-token, clubhouse-token, clubhouse-project, github-repo, label, state; the list is empty iff the options are valid |
| Validation.FlagInjective | src/ghch.js:82-111 | each violation's usage message names a different flag |
| Validation.Decide | src/ghch.js:116-119 | the run exits with status 1 exactly when some check fails and proceeds exactly when all pass |
| Validation.ValidateIsUnique | src/ghch.js:79-114 | any run-ordered list holding exactly the failed checks is the validator's list, so nothing is skipped after a failure |
| Validation.ViolationCount | src/ghch.js:79-114 | the number of violations equals the number of failing checks |
| Validation.StateAcceptedIff | src/ghch.js:107 | the state is accepted iff it spells open, closed or all with any mix of capitals |
| Validation.StateExamples | src/ghch.js:107 | "OPEN", "closed" and "All" pass; "opened" and "" fail |
| Validation.AllChecksReport | src/ghch.js:80-119 | with every flag missing (or empty) and an unknown state, all six violations are reported in order and the run exits with status 1 |
| SearchQuery.SearchFor | src/ghch.js:12-22 | one request for a page of 10; the query starts with `label:"` and reads back to the label and repository flags iff the label has no double quote |
| SearchQuery.ParseQuery | src/ghch.js:15 | whatever a query parses to rebuilds that same query, and the parsed label has no double quote |
| SearchQuery.QueryRoundTrip | src/ghch.js:15 | a label and repository are recovered from their query exactly when the label holds no double quote |
| SearchQuery.QueryInjective | src/ghch.js:15 | different quote-free labels or different repositories give different queries |
| SearchQuery.EmbeddedMiddleIsAmbiguous | src/ghch.js:15 | nothing is escaped: a label containing the text between label and repository yields the same query as a different, strictly shorter label with a longer repository |
| SearchQuery.SearchIgnoresState | src/ghch.js:12-15 | changing the state flag does not change the search request |
| SearchQuery.QueryFiltersOpen | src/ghch.js:13-15 | every query holds `label:"<label>"`, `state:open`, `org:Datasembly` and `repo:Datasembly/<repo>` at strictly increasing positions |
| Importer.ToStoryRequest | src/ghch.js:34-47 | the request carries the title as name, the body as description, the URL as external id and sole external link, the timestamps, the project id, and the story type the labels decide |
| Importer.StoryRequests | src/ghch.js:28-47 | no requests when the lookup failed; otherwise exactly one request per issue, the i-th built from the i-th issue |
| Importer.CountSucceeded | src/ghch.js:31-57 | the count never exceeds the number of outcomes, and equals it exactly when every request succeeded |
| Importer.Import | src/ghch.js:26-65 | the result is "not found" exactly when the lookup failed; otherwise the number of succeeded creation requests, no larger than the number of issues and equal to it iff no request failed |
| Importer.CountSplits | src/ghch.js:48-57 | the count of a batch is the sum of the counts of its parts, so a failure never stops later successes from counting |
| Importer.OneOutcomeInTheMiddle | src/ghch.js:48-51 | a failed request adds nothing and a successful one adds one, wherever it sits |
| Importer.CountIsMultiplicity | src/ghch.js:31-57 | the count is the number of successes among the outcomes |
| Importer.CountIgnoresCompletionOrder | src/ghch.js:32-57 | outcomes settling in any other order give the same count |
| Importer.ProjectNotFoundSendsNothing | src/ghch.js:28-29 | an unknown project sends no creation request and returns no count |
| Importer.ImportExamples | src/ghch.js:26-65 | three issues whose second request fails import 2; no issues import 0 |
| Importer.ImportIssues | src/ghch.js:26-65 | the counter loop sends the requests `StoryRequests` describes and ends with the count `Import` describes |

## Left out

- Network calls (Octokit search, Clubhouse `getProject` and `createStory`) are foreign libraries. Their results are inputs: the lookup's `Option<Project>` and one `Outcome` per request. A rejected search is fatal in the source and is not modelled.
- The promise fan-out and the `reflect` helper (src/ghch.js:32-57, 128-132) are modelled as a sequential fold over the outcomes. The completion-order lemma stands in for the concurrency.
- Console logging, `chalk` colouring and `process.exit` are I/O. Only the violations list and the exit decision are kept, and the flag each violation names is kept too (`Validation.Flag`), with no message text.
- The text of the per-story failure message is not modelled, since it throws before printing (see above).
- The orchestrator `githubClubhouseImport` (src/ghch.js:68-76) is left out. It validates, fetches, logs the total and starts the import without awaiting it. The search response's `total_count` is not modelled either.
- Flag parsing and help text in src/index.js are left out. Only its default `state = "open"` is used: `state` is a plain string, never absent.
- Strings.ToLower lower-cases ASCII letters only, where `toLowerCase` follows full Unicode case mapping. For the state check this changes nothing. The only non-ASCII characters whose lower case contains an ASCII letter are U+212A (to `k`) and U+0130 (to `i` followed by U+0307). Neither can help spell open, closed or all, so `Validation.StateAccepted` accepts exactly the states src/ghch.js:107 accepts.
- SearchQuery.SearchFor: the query is a plain string. The URL encoding Octokit applies on the way to GitHub is not modelled.
