# GitHub activity CLI — the event line formatter

The program fetches a user's recent public activity events and prints one
summary line per event. This project models the part that decides what
those lines say:

- the per-event formatter. It reads the event's `type` and optional `repo.name`,
  plus a few payload fields. It starts from a default line, `"{type} on {repo}"`,
  which the rule for that type may replace (module `Events`, `events.dfy`);
- the string helpers the rules use: Python's `str.capitalize` (ASCII letters
  only), the 60-character comment snippet with its ellipsis, and the decimal
  text of an integer (module `Text`, `text.dfy`);
- the driver loop. It prints one line per event in input order, or a single fixed
  message when the request failed or returned no events (module `Driver`,
  `driver.dfy`).

An event is a datatype with `Option` fields. Python truthiness is written
out: a string counts only when it is present and non-empty (`Truthy`), and a
pull request number counts only when it is present and non-zero. The
formatter is a total function. The main proved fact is that the default line
stands exactly when `KeepsDefault` says it does, so every line a rule produces
differs from that event's default line. The driver is a method with a loop,
proved equal to the specification function `Report`.

Three details of the code matter for the output:
- `str.capitalize` lower-cases every character after the first, so the
  rest of an action is not kept as it was.
- The counted push line (`Pushed N commit(s) to R`) also needs a repository
  name. Without one, the line is `Pushed to (unknown repo)`.
- An event with no `type` key gets a default line that begins with `None`,
  because that is how Python formats the missing value.

## Model

| member | source | states |
|---|---|---|
| Text.Capitalize | github-activity.py:38 | `str.capitalize`: same length; the first character is upper-cased; every later character is lower-cased, so none of them is an upper-case letter |
| Text.CapitalizeIdempotent | github-activity.py:38 | capitalising an already capitalised action changes nothing |
| Text.Snippet | github-activity.py:64 | a body of at most 60 characters is kept whole; a longer one becomes its first 60 characters plus one ellipsis, 61 characters in all; never longer than 61 |
| Text.SnippetKeepsPrefix | github-activity.py:64 | the snippet begins with the body's first min(60, length) characters |
| Text.NatDigits | github-activity.py:43 | the decimal text of a count is non-empty, all digits, and has no leading zero |
| Text.NatDigitsRoundTrip | github-activity.py:43 | reading the digits back gives the number |
| Text.IntToDecimalRoundTrip | github-activity.py:57 | reading back the printed PR number (sign included) gives the number |
| Text.IntToDecimalInjective | github-activity.py:57 | different numbers are printed differently |
| Events.OrElse | github-activity.py:32 | `x or fallback` (lines 32, 45, 93): a present, non-empty value is the result; with a non-empty fallback such as `(unknown repo)` the result is never empty; it differs from the fallback only when the value is present and non-empty |
| Events.Truthy | github-activity.py:37 | Python truthiness of an optional string, as tested at lines 37, 42, 54, 56, 63, 68, 69, 77, 79 and 94: present and non-empty (a predicate, stated by its definition) |
| Events.HasNumber | github-activity.py:54 | truthiness of `pr_num`: present and non-zero (a predicate, stated by its definition) |
| Events.TypeText | github-activity.py:32 | what `{evt_type}` prints: the type string, or `None` when the key is missing (stated by its definition; `DefaultExamples` shows the `None` case) |
| Events.DefaultLine | github-activity.py:32 | the default line `"{type} on {repo or '(unknown repo)'}"` (stated by its definition; `DefaultLineIff` says when it is printed) |
| Events.PullRequestVerb | github-activity.py:55 | the pull-request verb; `PullRequestVerbCases` states its two cases |
| Events.FormatEvent | github-activity.py:28-102 | the line of one event: never empty; `DefaultLineIff` says exactly when it is the default line, and `IssuesLine`, `PushLine`, `PullRequestLine`, `IssueCommentLine`, `WatchLine`, `ForkLine`, `CreateLine` and `UnhandledLine` give its form for each type |
| Text.IntToDecimal | github-activity.py:43 | `{count}` and `{pr_num}` (lines 43, 57): a non-empty text that starts with a digit for a non-negative number and with `-` for a negative one; `IntToDecimalRoundTrip` reads it back to the number |
| Events.KindOf | github-activity.py:35-83 | the type selects a rule exactly when it is one of the seven handled names, and then the rule of that name; a missing type selects none |
| Events.KindOfTagName | github-activity.py:35-83 | each rule's name selects that rule |
| Events.DefaultLineIff | github-activity.py:28-98 | the line equals `"{type} on {repo or '(unknown repo)'}"` if and only if the type has no rule or that rule's required fields are missing; a push event never keeps it |
| Events.IssuesOverrides | github-activity.py:35-38 | an issue event keeps the default line iff the action or the repository is missing |
| Events.PushOverrides | github-activity.py:40-45 | a push event never keeps the default line |
| Events.PullRequestOverrides | github-activity.py:47-59 | a pull request event keeps the default line iff the action, the repository or the number is missing |
| Events.IssueCommentOverrides | github-activity.py:61-65 | a comment event keeps the default line iff the body is missing or empty |
| Events.WatchOverrides | github-activity.py:66-72 | a watch event keeps the default line iff the repository is missing |
| Events.ForkOverrides | github-activity.py:74-81 | a fork event keeps the default line iff the repository is missing |
| Events.CreateOverrides | github-activity.py:83-98 | a create event keeps the default line iff the ref type is neither branch nor tag, and is not "repository" with a named repository |
| Events.UnhandledLine | github-activity.py:29-32 | a type without a rule prints `"{type} on {repo}"`, with `(unknown repo)` for an absent or empty name |
| Events.PushLine | github-activity.py:40-45 | a positive size with a repository gives `Pushed N commit to R` for N = 1 and `Pushed N commits to R` otherwise; in every other case the line is `Pushed to {repo or '(unknown repo)'}` |
| Events.IssuesLine | github-activity.py:35-38 | with action and repository: `"{Capitalized action} an issue in R"`; otherwise the default line |
| Events.PullRequestLine | github-activity.py:47-59 | with action, repository and number: verb, ` PR #N in R`, then `: title` exactly when the title is non-empty; otherwise the default line |
| Events.PullRequestVerbCases | github-activity.py:55 | the verb is `Merged` when the action is `closed` and the request is merged, and the capitalised action otherwise |
| Events.IssueCommentLine | github-activity.py:61-65 | a non-empty body gives `Commented: ` plus its snippet, which keeps the body's first min(60, length) characters and makes the line at most 72 characters long; an absent or empty body keeps the default line |
| Events.WatchLine | github-activity.py:66-72 | with a repository: the capitalised action, or `Starred` without one, then the repository; without a repository, the default line |
| Events.ForkLine | github-activity.py:74-81 | `Forked R to F` with the fork's full name, `Forked R` without it, the default line without a repository |
| Events.CreateLine | github-activity.py:83-98 | `Created repository R`; `Created {branch or tag} {ref or '(unnamed)'}` with ` in R` exactly when the repository is named; the default line for any other ref type |
| Events.PushOneCommitExample | github-activity.py:43 | size 1 prints `Pushed 1 commit to x/y` |
| Events.PushThreeCommitsExample | github-activity.py:43 | size 3 prints `Pushed 3 commits to x/y` |
| Events.PushNoRepoExample | github-activity.py:45 | a push without a repository prints `Pushed to (unknown repo)` |
| Events.CreateBranchExamples | github-activity.py:92-95 | branch `main` in `x/y` prints `Created branch main in x/y`; without a ref, `Created branch (unnamed) in x/y` |
| Events.MergedExample | github-activity.py:55-59 | a closed, merged pull request without a title prints `Merged PR #7 in x/y` |
| Events.IssuesExample | github-activity.py:38 | action `oPENED` prints `Opened an issue in x/y` |
| Events.DefaultExamples | github-activity.py:32 | an empty repository name prints `(unknown repo)`; a missing type prints `None` |
| Driver.NoEvents | github-activity.py:23 | `not events`: no list (a failed request) or an empty one (a predicate, stated by its definition) |
| Driver.Report | github-activity.py:22-28 | no event list or an empty one gives exactly the one failure message; otherwise one line per event, the i-th line being the i-th event's line |
| Driver.FailureIndistinguishable | github-activity.py:22-25 | a failed request and an empty list print the same output |
| Driver.ReportAppend | github-activity.py:28 | for a non-empty list, one more event adds exactly its own line at the end and the earlier lines do not change (for an empty list the failure message is replaced instead) |
| Driver.Run | github-activity.py:18-102 | the loop's output is `Report(events)` whatever the `--limit` value |

## Left out

- `get_user_data` (github-activity.py:5-11): the HTTP request and JSON decoding. Its outcome is the `Option<seq<Event>>` argument of `Driver.Run`, with `None` for a non-200 response. Transport exceptions are not modelled.
- Argument parsing (github-activity.py:14-20). `--limit` is parsed and never used. It is only a parameter of `Driver.Run` that the output does not depend on.
- `print`: the output is the returned sequence of lines, not writes to standard output.
- Crash paths of the dynamic typing: a `repo` that is present but `null` (line 30); a `payload` that is present but `null`, which crashes at the first `payload.get` of a handled type (lines 36, 41, 48, 62, 67, 75, 87), while every other type prints the default line that the model gives with `EmptyPayload`; a truthy action that is not a string (`.capitalize()` at lines 38, 55 and 70); a comment body without a length, such as a number (`len` at line 64); and a comment body that is a JSON array or object of more than 60 elements, which crashes at line 64 (a list plus a string, or a slice of a dict). Every field has a fixed type here, so these inputs cannot be written.
- Values of other JSON types that Python prints through `str` instead of crashing. These are a non-string `type` (line 32), a non-string `repo.name` (lines 32, 38, 43, 45, 57, 70, 72, 78, 80, 91, 95), a non-string title (line 57), a non-string `forkee.full_name` (line 78), a non-string ref (lines 93-97), a non-empty comment body that is a JSON array or object of at most 60 elements (it passes `len` at line 64 and is printed whole), and a `bool` size. A `bool` passes `isinstance(count, int)` at line 42, so `true` prints `Pushed True commit to R`. The typed fields cannot hold these values.
- A non-integer `size` is modelled as an absent one. Both make the push rule fall back to `Pushed to …`.
- `merged` is truthy only as `Some(true)`. Other truthy JSON values are outside the `Option<bool>` field.
- The pull request number is an integer. A non-integer number would be printed by Python's `str`, which is not modelled.
- Text.Capitalize: case-maps ASCII letters only, because Unicode case mapping is out of scope. Python also upper-cases or lower-cases other scripts' letters.
