/** The importer (`importIssuesToClubhouse`): resolve the Clubhouse project,
    send one story-creation request per GitHub issue, and count the requests
    that succeeded. The remote calls are inputs: the project lookup's answer
    and one outcome per creation request. */
module Importer {
  import opened Wrappers
  import opened Classifier

  /** A GitHub search result item, reduced to the fields the importer reads. */
  datatype Issue = Issue(
    createdAt: string,
    updatedAt: string,
    labels: seq<Label>,
    title: string,
    body: string,
    htmlUrl: string)

  /** A resolved Clubhouse project. */
  datatype Project = Project(id: int)

  /** The body of one `createStory` call. */
  datatype StoryRequest = StoryRequest(
    createdAt: string,
    updatedAt: string,
    storyType: StoryType,
    name: string,
    description: string,
    externalId: string,
    externalLinks: seq<string>,
    projectId: int)

  /** How one story-creation request settled. */
  datatype Outcome = Succeeded | Failed

  /** What the import resolves to: nothing when the project lookup failed,
      otherwise the number of stories created. */
  datatype ImportResult = ProjectNotFound | Imported(count: nat)

  /** The story request for one issue in the resolved project. */
  function ToStoryRequest(issue: Issue, project: Project): (r: StoryRequest)
    ensures r.name == issue.title && r.description == issue.body
    ensures r.externalId == issue.htmlUrl && r.externalLinks == [issue.htmlUrl]
    ensures r.createdAt == issue.createdAt && r.updatedAt == issue.updatedAt
    ensures r.projectId == project.id
    ensures r.storyType == Bug <==> HasLabelContaining(issue.labels, "bug")
    ensures r.storyType == Chore <==>
              !HasLabelContaining(issue.labels, "bug") && HasLabelContaining(issue.labels, "chore")
  {
    StoryRequest(
      createdAt := issue.createdAt,
      updatedAt := issue.updatedAt,
      storyType := GetStoryType(issue.labels),
      name := issue.title,
      description := issue.body,
      externalId := issue.htmlUrl,
      externalLinks := [issue.htmlUrl],
      projectId := project.id)
  }

  /** The creation requests sent: none when the project lookup failed,
      otherwise one per issue, in issue order. */
  function StoryRequests(issues: seq<Issue>, lookup: Option<Project>): (rs: seq<StoryRequest>)
    ensures lookup.None? ==> rs == []
    ensures lookup.Some? ==> |rs| == |issues|
    ensures lookup.Some? ==> forall i :: 0 <= i < |issues| ==> rs[i] == ToStoryRequest(issues[i], lookup.value)
  {
    match lookup
    case None => []
    case Some(project) =>
      if |issues| == 0 then []
      else StoryRequests(issues[..|issues| - 1], lookup) + [ToStoryRequest(issues[|issues| - 1], project)]
  }

  /** The settled outcomes folded into a count, one increment per success,
      as the counter in the importer is bumped when a request succeeds. */
  function CountSucceeded(outcomes: seq<Outcome>): (n: nat)
    ensures n <= |outcomes|
    ensures n == |outcomes| <==> forall i :: 0 <= i < |outcomes| ==> outcomes[i] == Succeeded
  {
    if |outcomes| == 0 then 0
    else
      CountSucceeded(outcomes[..|outcomes| - 1])
      + (if outcomes[|outcomes| - 1] == Succeeded then 1 else 0)
  }

  /** The import as a whole. `outcomes[i]` is how the request for
      `issues[i]` settled; it is consulted only when the project was found. */
  function Import(issues: seq<Issue>, lookup: Option<Project>, outcomes: seq<Outcome>): (r: ImportResult)
    requires lookup.Some? ==> |outcomes| == |issues|
    ensures r == ProjectNotFound <==> lookup.None?
    ensures r.Imported? ==> r.count <= |issues|
    ensures r.Imported? ==> (r.count == |issues| <==> Failed !in outcomes)
    ensures r.Imported? ==> r.count == multiset(outcomes)[Succeeded]
  {
    CountIsMultiplicity(outcomes);
    match lookup
    case None => ProjectNotFound
    case Some(_) => Imported(CountSucceeded(outcomes))
  }

  /** The count of a batch is the sum of the counts of its parts: a failure
      in the first part never stops the second part from being counted. */
  lemma {:induction false} CountSplits(a: seq<Outcome>, b: seq<Outcome>)
    ensures CountSucceeded(a + b) == CountSucceeded(a) + CountSucceeded(b)
  {
    if |b| > 0 {
      var b' := b[..|b| - 1];
      CountSplits(a, b');
      assert (a + b)[..|a + b| - 1] == a + b';
    } else {
      assert a + b == a;
    }
  }

  /** A failed request in the middle of a batch is skipped and nothing else
      changes; a successful one adds exactly one. */
  lemma OneOutcomeInTheMiddle(before: seq<Outcome>, o: Outcome, after: seq<Outcome>)
    ensures CountSucceeded(before + [o] + after)
         == CountSucceeded(before) + (if o == Succeeded then 1 else 0) + CountSucceeded(after)
  {
    CountSplits(before + [o], after);
    CountSplits(before, [o]);
    assert [o][..0] == [];
  }

  /** The count is the number of successes in the batch, however the batch
      is ordered. */
  lemma {:induction false} CountIsMultiplicity(outcomes: seq<Outcome>)
    ensures CountSucceeded(outcomes) == multiset(outcomes)[Succeeded]
  {
    if |outcomes| > 0 {
      var init := outcomes[..|outcomes| - 1];
      CountIsMultiplicity(init);
      assert outcomes == init + [outcomes[|outcomes| - 1]];
      assert multiset(outcomes) == multiset(init) + multiset{outcomes[|outcomes| - 1]};
    }
  }

  /** Requests settle in any order; the count does not depend on it. */
  lemma CountIgnoresCompletionOrder(a: seq<Outcome>, b: seq<Outcome>)
    requires multiset(a) == multiset(b)
    ensures CountSucceeded(a) == CountSucceeded(b)
  {
    CountIsMultiplicity(a);
    CountIsMultiplicity(b);
  }

  /** An unknown project means no story is requested and no count is returned,
      whatever the issues are. */
  lemma ProjectNotFoundSendsNothing(issues: seq<Issue>, outcomes: seq<Outcome>)
    ensures StoryRequests(issues, None) == []
    ensures Import(issues, None, outcomes) == ProjectNotFound
  {
  }

  /** Three issues whose second request fails import two stories; an empty
      search result imports none. */
  lemma ImportExamples(i1: Issue, i2: Issue, i3: Issue, p: Project)
    ensures Import([i1, i2, i3], Some(p), [Succeeded, Failed, Succeeded]) == Imported(2)
    ensures Import([], Some(p), []) == Imported(0)
  {
  }

  /** The importer as a loop over the issues: build each request, and bump
      the counter when its outcome is a success. */
  method ImportIssues(issues: seq<Issue>, lookup: Option<Project>, outcomes: seq<Outcome>)
    returns (requests: seq<StoryRequest>, result: ImportResult)
    requires lookup.Some? ==> |outcomes| == |issues|
    ensures requests == StoryRequests(issues, lookup)
    ensures result == Import(issues, lookup, outcomes)
  {
    if lookup.None? {
      return [], ProjectNotFound;
    }
    var project := lookup.value;
    var issuesImported: nat := 0;
    requests := [];
    var i := 0;
    while i < |issues|
      invariant 0 <= i <= |issues|
      invariant requests == StoryRequests(issues[..i], lookup)
      invariant issuesImported == CountSucceeded(outcomes[..i])
    {
      requests := requests + [ToStoryRequest(issues[i], project)];
      if outcomes[i] == Succeeded {
        issuesImported := issuesImported + 1;
      }
      assert issues[..i + 1][..i] == issues[..i];
      assert outcomes[..i + 1][..i] == outcomes[..i];
      i := i + 1;
    }
    assert issues[..i] == issues;
    assert outcomes[..i] == outcomes;
    result := Imported(issuesImported);
  }
}
