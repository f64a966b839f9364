/** One activity event and the single display line the command-line tool
    prints for it. An event record is a loosely typed mapping; here every
    key the formatter looks at is an optional field. */
module Events {
  import opened Text

  datatype Option<T> = None | Some(value: T)

  /** The payload fields the formatter reads. A nested object that is absent
      or null (`pull_request`, `comment`, `forkee`) is the same as one whose
      fields are all absent, since the source replaces it by an empty mapping. */
  datatype Payload = Payload(
    action: Option<string>,        // payload.action
    size: Option<int>,             // payload.size, when it is an integer
    number: Option<int>,           // payload.number
    prTitle: Option<string>,       // payload.pull_request.title
    prMerged: Option<bool>,        // payload.pull_request.merged
    commentBody: Option<string>,   // payload.comment.body
    forkFullName: Option<string>,  // payload.forkee.full_name
    refType: Option<string>,       // payload.ref_type
    refName: Option<string>)       // payload.ref

  /** A payload-less event: the `payload` key is missing. */
  const EmptyPayload := Payload(None, None, None, None, None, None, None, None, None)

  datatype Event = Event(
    tag: Option<string>,       // type
    repoName: Option<string>,  // repo.name
    payload: Payload)

  /** Python truthiness of an optional string: present and non-empty. */
  predicate Truthy(o: Option<string>) {
    o.Some? && o.value != ""
  }

  /** `o or fallback` for an optional string: a present, non-empty value is
      the result; with a non-empty fallback the result is never empty, and
      the fallback shows unless a value is present. */
  function OrElse(o: Option<string>, fallback: string): (r: string)
    ensures Truthy(o) ==> r == o.value
    ensures fallback != "" ==> r != ""
    ensures r != fallback ==> Truthy(o) && r == o.value
  {
    if Truthy(o) then o.value else fallback
  }

  const UnknownRepo := "(unknown repo)"
  const Unnamed := "(unnamed)"

  /** The event types the formatter has a rule for, and all the others. */
  datatype EventKind =
    | Issues | Push | PullRequest | IssueComment | Watch | Fork | Create
    | Unhandled

  function TagName(k: EventKind): string
    requires k != Unhandled
  {
    match k
    case Issues => "IssuesEvent"
    case Push => "PushEvent"
    case PullRequest => "PullRequestEvent"
    case IssueComment => "IssueCommentEvent"
    case Watch => "WatchEvent"
    case Fork => "ForkEvent"
    case Create => "CreateEvent"
  }

  const HandledTags: set<string> :=
    {"IssuesEvent", "PushEvent", "PullRequestEvent", "IssueCommentEvent",
     "WatchEvent", "ForkEvent", "CreateEvent"}

  /** Which rule an event's `type` selects; a missing type selects none. */
  function KindOf(tag: Option<string>): (k: EventKind)
    ensures k == Unhandled <==> tag.None? || tag.value !in HandledTags
    ensures k != Unhandled ==> tag == Some(TagName(k))
  {
    if tag.None? then Unhandled
    else if tag.value == "IssuesEvent" then Issues
    else if tag.value == "PushEvent" then Push
    else if tag.value == "PullRequestEvent" then PullRequest
    else if tag.value == "IssueCommentEvent" then IssueComment
    else if tag.value == "WatchEvent" then Watch
    else if tag.value == "ForkEvent" then Fork
    else if tag.value == "CreateEvent" then Create
    else Unhandled
  }

  /** Naming a kind and reading the name back gives the kind. */
  lemma KindOfTagName(k: EventKind)
    requires k != Unhandled
    ensures KindOf(Some(TagName(k))) == k
  {
  }

  /** What an f-string prints for the `type` value: Python prints a missing
      one as `None`. */
  function TypeText(tag: Option<string>): string {
    match tag
    case Some(t) => t
    case None => "None"
  }

  /** The line printed when no rule applies. */
  function DefaultLine(e: Event): string {
    TypeText(e.tag) + " on " + OrElse(e.repoName, UnknownRepo)
  }

  /** The pull request number is truthy when present and non-zero. */
  predicate HasNumber(p: Payload) {
    p.number.Some? && p.number.value != 0
  }

  /** The verb of a pull-request line. */
  function PullRequestVerb(action: string, merged: Option<bool>): string {
    if action == "closed" && merged == Some(true) then "Merged" else Capitalize(action)
  }

  /** The one display line of an event; formatting never fails and never
      gives an empty line. */
  function FormatEvent(e: Event): (line: string)
    ensures |line| > 0
  {
    var p := e.payload;
    var repo := e.repoName;
    match KindOf(e.tag)
    case Issues =>
      if Truthy(p.action) && Truthy(repo) then
        Capitalize(p.action.value) + " an issue in " + repo.value
      else DefaultLine(e)
    case Push =>
      if p.size.Some? && p.size.value > 0 && Truthy(repo) then
        "Pushed " + IntToDecimal(p.size.value) + " commit" + (if p.size.value != 1 then "s" else "")
          + " to " + repo.value
      else "Pushed to " + OrElse(repo, UnknownRepo)
    case PullRequest =>
      if Truthy(p.action) && Truthy(repo) && HasNumber(p) then
        PullRequestVerb(p.action.value, p.prMerged) + " PR #" + IntToDecimal(p.number.value)
          + " in " + repo.value + (if Truthy(p.prTitle) then ": " + p.prTitle.value else "")
      else DefaultLine(e)
    case IssueComment =>
      if Truthy(p.commentBody) then "Commented: " + Snippet(p.commentBody.value)
      else DefaultLine(e)
    case Watch =>
      if Truthy(repo) then
        (if Truthy(p.action) then Capitalize(p.action.value) else "Starred") + " " + repo.value
      else DefaultLine(e)
    case Fork =>
      if Truthy(repo) then
        "Forked " + repo.value + (if Truthy(p.forkFullName) then " to " + p.forkFullName.value else "")
      else DefaultLine(e)
    case Create =>
      if p.refType == Some("repository") && Truthy(repo) then
        "Created repository " + repo.value
      else if p.refType == Some("branch") || p.refType == Some("tag") then
        "Created " + p.refType.value + " " + OrElse(p.refName, Unnamed)
          + (if Truthy(repo) then " in " + repo.value else "")
      else DefaultLine(e)
    case Unhandled =>
      DefaultLine(e)
  }

  /** When the default line stands: every type without a rule, and each
      rule's missing required fields. A push event always has its own line. */
  predicate KeepsDefault(e: Event) {
    var p := e.payload;
    var repo := e.repoName;
    match KindOf(e.tag)
    case Issues => !Truthy(p.action) || !Truthy(repo)
    case Push => false
    case PullRequest => !Truthy(p.action) || !Truthy(repo) || !HasNumber(p)
    case IssueComment => !Truthy(p.commentBody)
    case Watch => !Truthy(repo)
    case Fork => !Truthy(repo)
    case Create =>
      p.refType != Some("branch") && p.refType != Some("tag")
        && (p.refType != Some("repository") || !Truthy(repo))
    case Unhandled => true
  }

  /** A line that starts with a capitalised word differs from a default line
      of `tag`, when `tag` has an upper-case letter at position k >= 1 and no
      space before it: either the word is long enough to reach position k,
      where capitalising left a lower-case character, or the space after
      the word comes before position k. */
  lemma {:induction false} CapitalizedDiffers(word: string, rest: string, tag: string, tail: string, k: nat)
    requires word != [] && rest != [] && rest[0] == ' '
    requires 1 <= k < |tag| && IsUpperLetter(tag[k])
    requires forall j :: 0 <= j < k ==> tag[j] != ' '
    ensures Capitalize(word) + rest != tag + tail
  {
    var line, dflt := Capitalize(word) + rest, tag + tail;
    if |word| > k {
      assert line[k] == Capitalize(word)[k];
      assert !IsUpperLetter(line[k]);
      assert dflt[k] == tag[k];
    } else {
      var n := |word|;
      assert line[n] == ' ';
      assert dflt[n] == tag[n];
    }
  }

  /** Lines that begin with different literal words differ. */
  lemma {:induction false} LiteralPrefixDiffers(a: string, s: string, b: string, t: string, k: nat)
    requires k < |a| && k < |b| && a[k] != b[k]
    ensures a + s != b + t
  {
    assert (a + s)[k] == a[k];
    assert (b + t)[k] == b[k];
  }

  /** The default line stands exactly when KeepsDefault says so: every line a
      rule produces differs from the default line of that event. */
  lemma DefaultLineIff(e: Event)
    ensures FormatEvent(e) == DefaultLine(e) <==> KeepsDefault(e)
  {
    match KindOf(e.tag)
    case Issues => IssuesOverrides(e);
    case Push => PushOverrides(e);
    case PullRequest => PullRequestOverrides(e);
    case IssueComment => IssueCommentOverrides(e);
    case Watch => WatchOverrides(e);
    case Fork => ForkOverrides(e);
    case Create => CreateOverrides(e);
    case Unhandled =>
  }

  /** The default line of a handled kind is its type name followed by ` on `. */
  lemma HandledDefault(e: Event)
    requires KindOf(e.tag) != Unhandled
    ensures DefaultLine(e) == TagName(KindOf(e.tag)) + (" on " + OrElse(e.repoName, UnknownRepo))
  {
  }

  lemma IssuesOverrides(e: Event)
    requires KindOf(e.tag) == Issues
    ensures FormatEvent(e) == DefaultLine(e) <==> KeepsDefault(e)
  {
    var p, repo := e.payload, e.repoName;
    if Truthy(p.action) && Truthy(repo) {
      HandledDefault(e);
      CapitalizedDiffers(p.action.value, " an issue in " + repo.value,
        "IssuesEvent", " on " + OrElse(repo, UnknownRepo), 6);
    }
  }

  lemma PushOverrides(e: Event)
    requires KindOf(e.tag) == Push
    ensures FormatEvent(e) == DefaultLine(e) <==> KeepsDefault(e)
  {
    var p, repo := e.payload, e.repoName;
    HandledDefault(e);
    var tail := " on " + OrElse(repo, UnknownRepo);
    if p.size.Some? && p.size.value > 0 && Truthy(repo) {
      LiteralPrefixDiffers("Pushed ", IntToDecimal(p.size.value) + " commit"
        + (if p.size.value != 1 then "s" else "") + " to " + repo.value, "PushEvent", tail, 4);
    } else {
      LiteralPrefixDiffers("Pushed ", "to " + OrElse(repo, UnknownRepo), "PushEvent", tail, 4);
    }
  }

  lemma PullRequestOverrides(e: Event)
    requires KindOf(e.tag) == PullRequest
    ensures FormatEvent(e) == DefaultLine(e) <==> KeepsDefault(e)
  {
    var p, repo := e.payload, e.repoName;
    if Truthy(p.action) && Truthy(repo) && HasNumber(p) {
      HandledDefault(e);
      var tail := " on " + OrElse(repo, UnknownRepo);
      var rest := " PR #" + IntToDecimal(p.number.value) + " in " + repo.value
        + (if Truthy(p.prTitle) then ": " + p.prTitle.value else "");
      assert FormatEvent(e) == PullRequestVerb(p.action.value, p.prMerged) + rest;
      if p.action.value == "closed" && p.prMerged == Some(true) {
        LiteralPrefixDiffers("Merged", rest, "PullRequestEvent", tail, 0);
      } else {
        CapitalizedDiffers(p.action.value, rest, "PullRequestEvent", tail, 4);
      }
    }
  }

  lemma IssueCommentOverrides(e: Event)
    requires KindOf(e.tag) == IssueComment
    ensures FormatEvent(e) == DefaultLine(e) <==> KeepsDefault(e)
  {
    var p := e.payload;
    if Truthy(p.commentBody) {
      HandledDefault(e);
      LiteralPrefixDiffers("Commented: ", Snippet(p.commentBody.value),
        "IssueCommentEvent", " on " + OrElse(e.repoName, UnknownRepo), 0);
    }
  }

  lemma WatchOverrides(e: Event)
    requires KindOf(e.tag) == Watch
    ensures FormatEvent(e) == DefaultLine(e) <==> KeepsDefault(e)
  {
    var p, repo := e.payload, e.repoName;
    if Truthy(repo) {
      HandledDefault(e);
      var tail := " on " + OrElse(repo, UnknownRepo);
      if Truthy(p.action) {
        CapitalizedDiffers(p.action.value, " " + repo.value, "WatchEvent", tail, 5);
      } else {
        LiteralPrefixDiffers("Starred", " " + repo.value, "WatchEvent", tail, 0);
      }
    }
  }

  lemma ForkOverrides(e: Event)
    requires KindOf(e.tag) == Fork
    ensures FormatEvent(e) == DefaultLine(e) <==> KeepsDefault(e)
  {
    var p, repo := e.payload, e.repoName;
    if Truthy(repo) {
      HandledDefault(e);
      LiteralPrefixDiffers("Forked ", repo.value
        + (if Truthy(p.forkFullName) then " to " + p.forkFullName.value else ""),
        "ForkEvent", " on " + OrElse(repo, UnknownRepo), 4);
    }
  }

  lemma CreateOverrides(e: Event)
    requires KindOf(e.tag) == Create
    ensures FormatEvent(e) == DefaultLine(e) <==> KeepsDefault(e)
  {
    var p, repo := e.payload, e.repoName;
    if !KeepsDefault(e) {
      HandledDefault(e);
      var tail := " on " + OrElse(repo, UnknownRepo);
      if p.refType == Some("repository") && Truthy(repo) {
        LiteralPrefixDiffers("Created ", "repository " + repo.value, "CreateEvent", tail, 6);
      } else {
        LiteralPrefixDiffers("Created ", p.refType.value + " " + OrElse(p.refName, Unnamed)
          + (if Truthy(repo) then " in " + repo.value else ""), "CreateEvent", tail, 6);
      }
    }
  }

  /** A type without a rule prints `{type} on {repo}`, with `(unknown repo)`
      for a missing or empty repository name. */
  lemma UnhandledLine(e: Event)
    requires e.tag.None? || e.tag.value !in HandledTags
    ensures FormatEvent(e) == TypeText(e.tag) + " on " + OrElse(e.repoName, UnknownRepo)
    ensures e.tag.Some? && !Truthy(e.repoName) ==> FormatEvent(e) == e.tag.value + " on (unknown repo)"
  {
  }

  /** Push events: a count with the singular or plural noun when the size is
      a positive integer and the repository is named, `Pushed to ...`
      otherwise, and never the default line. */
  lemma PushLine(e: Event)
    requires KindOf(e.tag) == Push
    ensures var p := e.payload;
      if p.size.Some? && p.size.value > 0 && Truthy(e.repoName) then
        FormatEvent(e) == "Pushed " + IntToDecimal(p.size.value)
          + (if p.size.value == 1 then " commit to " else " commits to ") + e.repoName.value
      else
        FormatEvent(e) == "Pushed to " + OrElse(e.repoName, UnknownRepo)
    ensures FormatEvent(e) != DefaultLine(e)
  {
    DefaultLineIff(e);
  }

  /** Issue events: `{Action} an issue in {repo}` when both are given. */
  lemma IssuesLine(e: Event)
    requires KindOf(e.tag) == Issues
    ensures Truthy(e.payload.action) && Truthy(e.repoName) ==>
      FormatEvent(e) == Capitalize(e.payload.action.value) + " an issue in " + e.repoName.value
    ensures !Truthy(e.payload.action) || !Truthy(e.repoName) ==> FormatEvent(e) == DefaultLine(e)
  {
  }

  /** Pull request events: with action, repository and number, the verb,
      the number, the repository and, exactly when there is a title, the
      title; the verb is `Merged` for a merged closed request and the
      capitalised action otherwise. */
  lemma PullRequestLine(e: Event)
    requires KindOf(e.tag) == PullRequest
    ensures var p := e.payload;
      Truthy(p.action) && Truthy(e.repoName) && HasNumber(p) ==>
        FormatEvent(e) == PullRequestVerb(p.action.value, p.prMerged) + " PR #"
          + IntToDecimal(p.number.value) + " in " + e.repoName.value
          + (if Truthy(p.prTitle) then ": " + p.prTitle.value else "")
    ensures var p := e.payload;
      !Truthy(p.action) || !Truthy(e.repoName) || !HasNumber(p) ==> FormatEvent(e) == DefaultLine(e)
  {
  }

  /** The pull-request verb is `Merged` for a closed, merged request, and the
      capitalised action in every other case. */
  lemma PullRequestVerbCases(action: string, merged: Option<bool>)
    ensures action == "closed" && merged == Some(true) ==> PullRequestVerb(action, merged) == "Merged"
    ensures !(action == "closed" && merged == Some(true)) ==> PullRequestVerb(action, merged) == Capitalize(action)
  {
  }

  /** Comment events: `Commented: ` and the snippet of a non-empty body; the
      snippet is at most 61 characters and starts with the body's first
      min(60, |body|) characters. */
  lemma IssueCommentLine(e: Event)
    requires KindOf(e.tag) == IssueComment
    ensures Truthy(e.payload.commentBody) ==>
      var body := e.payload.commentBody.value;
      var k := if |body| < SnippetLimit then |body| else SnippetLimit;
      FormatEvent(e) == "Commented: " + Snippet(body)
        && |FormatEvent(e)| <= |"Commented: "| + SnippetLimit + 1
        && FormatEvent(e)[|"Commented: "|..][..k] == body[..k]
    ensures !Truthy(e.payload.commentBody) ==> FormatEvent(e) == DefaultLine(e)
  {
    if Truthy(e.payload.commentBody) {
      SnippetKeepsPrefix(e.payload.commentBody.value);
    }
  }

  /** Watch events need a repository; the capitalised action, or `Starred`
      without one, precedes it. */
  lemma WatchLine(e: Event)
    requires KindOf(e.tag) == Watch
    ensures Truthy(e.repoName) ==>
      FormatEvent(e) == (if Truthy(e.payload.action) then Capitalize(e.payload.action.value) else "Starred")
        + " " + e.repoName.value
    ensures !Truthy(e.repoName) ==> FormatEvent(e) == DefaultLine(e)
  {
  }

  /** Fork events need a repository; the fork's full name follows when known. */
  lemma ForkLine(e: Event)
    requires KindOf(e.tag) == Fork
    ensures Truthy(e.repoName) && Truthy(e.payload.forkFullName) ==>
      FormatEvent(e) == "Forked " + e.repoName.value + " to " + e.payload.forkFullName.value
    ensures Truthy(e.repoName) && !Truthy(e.payload.forkFullName) ==>
      FormatEvent(e) == "Forked " + e.repoName.value
    ensures !Truthy(e.repoName) ==> FormatEvent(e) == DefaultLine(e)
  {
  }

  /** Create events: a named repository, or a branch or tag (named, or
      `(unnamed)`) followed by ` in {repo}` exactly when the repository is
      named; any other ref type keeps the default line. */
  lemma CreateLine(e: Event)
    requires KindOf(e.tag) == Create
    ensures var p := e.payload;
      p.refType == Some("repository") && Truthy(e.repoName) ==>
        FormatEvent(e) == "Created repository " + e.repoName.value
    ensures var p := e.payload;
      (p.refType == Some("branch") || p.refType == Some("tag")) ==>
        FormatEvent(e) == "Created " + p.refType.value + " " + OrElse(p.refName, Unnamed)
          + (if Truthy(e.repoName) then " in " + e.repoName.value else "")
    ensures var p := e.payload;
      p.refType != Some("branch") && p.refType != Some("tag")
        && !(p.refType == Some("repository") && Truthy(e.repoName)) ==>
        FormatEvent(e) == DefaultLine(e)
  {
  }

  /** A single commit takes the singular noun. */
  lemma PushOneCommitExample()
    ensures FormatEvent(Event(Some("PushEvent"), Some("x/y"), EmptyPayload.(size := Some(1))))
      == "Pushed 1 commit to x/y"
  {
    assert IntToDecimal(1) == "1";
  }

  /** Three commits take the plural noun. */
  lemma PushThreeCommitsExample()
    ensures FormatEvent(Event(Some("PushEvent"), Some("x/y"), EmptyPayload.(size := Some(3))))
      == "Pushed 3 commits to x/y"
  {
    assert IntToDecimal(3) == "3";
  }

  /** Without a repository name the count is dropped. */
  lemma PushNoRepoExample()
    ensures FormatEvent(Event(Some("PushEvent"), None, EmptyPayload.(size := Some(3))))
      == "Pushed to (unknown repo)"
  {
  }

  /** A branch with and without a name. */
  lemma CreateBranchExamples()
    ensures FormatEvent(Event(Some("CreateEvent"), Some("x/y"),
      EmptyPayload.(refType := Some("branch"), refName := Some("main")))) == "Created branch main in x/y"
    ensures FormatEvent(Event(Some("CreateEvent"), Some("x/y"),
      EmptyPayload.(refType := Some("branch")))) == "Created branch (unnamed) in x/y"
  {
  }

  /** A closed and merged pull request without a title. */
  lemma MergedExample()
    ensures FormatEvent(Event(Some("PullRequestEvent"), Some("x/y"),
      EmptyPayload.(action := Some("closed"), number := Some(7), prMerged := Some(true))))
      == "Merged PR #7 in x/y"
  {
    assert IntToDecimal(7) == "7";
  }

  /** Capitalising lower-cases everything after the first letter. */
  lemma IssuesExample()
    ensures FormatEvent(Event(Some("IssuesEvent"), Some("x/y"),
      EmptyPayload.(action := Some("oPENED")))) == "Opened an issue in x/y"
  {
    assert Capitalize("oPENED") == "Opened";
  }

  /** Default lines: an empty repository name and a missing type. */
  lemma DefaultExamples()
    ensures FormatEvent(Event(Some("GollumEvent"), Some(""), EmptyPayload)) == "GollumEvent on (unknown repo)"
    ensures FormatEvent(Event(None, Some("x/y"), EmptyPayload)) == "None on x/y"
  {
  }
}
