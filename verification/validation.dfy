/** The option validator (`validateOptions`): every check runs, each failing
    check contributes one violation naming its flag, and the run terminates
    with status 1 exactly when at least one check failed. */
module Validation {
  import opened Wrappers
  import opened Strings

  /** The parsed command-line flags. Every flag but `state` may be absent;
      `state` defaults to "open" when the flag is not given. */
  datatype Options = Options(
    githubToken: Option<string>,
    clubhouseToken: Option<string>,
    clubhouseProject: Option<string>,
    githubRepo: Option<string>,
    issueLabel: Option<string>,
    state: string)

  /** One failed check, named after the flag it concerns. */
  datatype Violation =
    | MissingGithubToken
    | MissingClubhouseToken
    | MissingClubhouseProject
    | MissingGithubRepo
    | MissingLabel
    | InvalidState

  /** What terminating the run means: carry on, or exit with a status code. */
  datatype Decision = Proceed | Exit(status: int)

  /** The states the validator accepts for `--state`, in lower case. */
  const AcceptedStates: seq<string> := ["open", "closed", "all"]

  /** Every check, in the order the validator runs them. */
  const AllChecks: seq<Violation> := [MissingGithubToken, MissingClubhouseToken,
    MissingClubhouseProject, MissingGithubRepo, MissingLabel, InvalidState]

  /** JavaScript truthiness of a string flag: present and not empty. */
  predicate Truthy(x: Option<string>) {
    x.Some? && x.value != ""
  }

  /** The flag a violation names in its usage message. */
  function Flag(v: Violation): string {
    match v
    case MissingGithubToken => "--github-token"
    case MissingClubhouseToken => "--clubhouse-token"
    case MissingClubhouseProject => "--clubhouse-project"
    case MissingGithubRepo => "--github-repo"
    case MissingLabel => "--label"
    case InvalidState => "--state"
  }

  /** Each violation names a different flag. */
  lemma FlagInjective(v: Violation, w: Violation)
    ensures Flag(v) == Flag(w) ==> v == w
  {
  }

  /** Position of a check in the validator's run order. */
  function Rank(v: Violation): nat {
    match v
    case MissingGithubToken => 0
    case MissingClubhouseToken => 1
    case MissingClubhouseProject => 2
    case MissingGithubRepo => 3
    case MissingLabel => 4
    case InvalidState => 5
  }

  /** `state`, lower-cased, is one of the accepted states. */
  predicate StateAccepted(state: string) {
    ToLower(state) in AcceptedStates
  }

  /** The check behind `v` fails for `o`. */
  predicate Fails(o: Options, v: Violation) {
    match v
    case MissingGithubToken => !Truthy(o.githubToken)
    case MissingClubhouseToken => !Truthy(o.clubhouseToken)
    case MissingClubhouseProject => !Truthy(o.clubhouseProject)
    case MissingGithubRepo => !Truthy(o.githubRepo)
    case MissingLabel => !Truthy(o.issueLabel)
    case InvalidState => !StateAccepted(o.state)
  }

  /** The options the rest of the run may rely on: every required flag set
      and a recognised state. */
  predicate Valid(o: Options) {
    && Truthy(o.githubToken)
    && Truthy(o.clubhouseToken)
    && Truthy(o.clubhouseProject)
    && Truthy(o.githubRepo)
    && Truthy(o.issueLabel)
    && StateAccepted(o.state)
  }

  /** Violations are listed in run order, each at most once. */
  predicate InRunOrder(vs: seq<Violation>) {
    forall i, j :: 0 <= i < j < |vs| ==> Rank(vs[i]) < Rank(vs[j])
  }

  /** One violation when `failed`, none otherwise. */
  function Report(failed: bool, v: Violation): seq<Violation> {
    if failed then [v] else []
  }

  /** `validateOptions` without its side effects: the violations, in the
      order their messages are logged. No check is skipped because an
      earlier one failed. */
  function Validate(o: Options): (r: seq<Violation>)
    ensures forall v :: v in r <==> Fails(o, v)
    ensures InRunOrder(r)
    ensures r == [] <==> Valid(o)
  {
    Report(!Truthy(o.githubToken), MissingGithubToken)
    + Report(!Truthy(o.clubhouseToken), MissingClubhouseToken)
    + Report(!Truthy(o.clubhouseProject), MissingClubhouseProject)
    + Report(!Truthy(o.githubRepo), MissingGithubRepo)
    + Report(!Truthy(o.issueLabel), MissingLabel)
    + Report(!StateAccepted(o.state), InvalidState)
  }

  /** The decision taken after validation: exit with status 1 exactly when
      some check failed, otherwise carry on with the import. */
  function Decide(o: Options): (d: Decision)
    ensures d == Exit(1) <==> !Valid(o)
    ensures d == Proceed <==> Valid(o)
  {
    if |Validate(o)| > 0 then Exit(1) else Proceed
  }

  /** Helper: two run-ordered lists of the same violations are the same list. */
  lemma {:induction false} RunOrderedUnique(a: seq<Violation>, b: seq<Violation>)
    requires InRunOrder(a) && InRunOrder(b)
    requires forall v :: v in a <==> v in b
    ensures a == b
  {
    assert |a| > 0 ==> a[0] in b;
    assert |b| > 0 ==> b[0] in a;
    if a != [] && b != [] {
      // the head of each is the element of least rank in both
      assert a[0] in b && b[0] in a;
      var i :| 0 <= i < |a| && a[i] == b[0];
      var j :| 0 <= j < |b| && b[j] == a[0];
      assert a[0] == b[0];
      forall v
        ensures v in a[1..] <==> v in b[1..]
      {
        if v in a[1..] {
          var i :| 0 <= i < |a| - 1 && a[1..][i] == v;
          assert Rank(a[0]) < Rank(a[i + 1]);
          assert a[i + 1] == v && v in a && v in b;
          var j :| 0 <= j < |b| && b[j] == v;
          assert b[1..][j - 1] == v;
        }
        if v in b[1..] {
          var j :| 0 <= j < |b| - 1 && b[1..][j] == v;
          assert Rank(b[0]) < Rank(b[j + 1]);
          assert b[j + 1] == v && v in b && v in a;
          var i :| 0 <= i < |a| && a[i] == v;
          assert a[1..][i - 1] == v;
        }
      }
      RunOrderedUnique(a[1..], b[1..]);
      assert a == [a[0]] + a[1..];
      assert b == [b[0]] + b[1..];
    }
  }

  /** The violation list is the only run-ordered list holding exactly the
      failed checks: nothing is reported twice, out of order, or left out. */
  lemma ValidateIsUnique(o: Options, vs: seq<Violation>)
    requires forall v :: v in vs <==> Fails(o, v)
    requires InRunOrder(vs)
    ensures vs == Validate(o)
  {
    RunOrderedUnique(vs, Validate(o));
  }

  /** Helper: a list without repeats has as many elements as its set. */
  lemma {:induction false} DistinctCardinality(vs: seq<Violation>)
    requires InRunOrder(vs)
    ensures |set v | v in vs| == |vs|
  {
    if vs != [] {
      var tail := vs[1..];
      DistinctCardinality(tail);
      assert vs[0] !in tail;
      assert (set v | v in vs) == {vs[0]} + (set v | v in tail);
    }
  }

  /** The number of violations is the number of checks that fail. */
  lemma ViolationCount(o: Options)
    ensures |Validate(o)| == |set v | v in AllChecks && Fails(o, v)|
  {
    var r := Validate(o);
    forall v ensures v in AllChecks {
      assert AllChecks[Rank(v)] == v;
    }
    assert (set v | v in r) == (set v | v in AllChecks && Fails(o, v));
    DistinctCardinality(r);
  }

  /** The state check is case-insensitive: it accepts exactly the spellings
      of "open", "closed" or "all" with any mix of upper- and lower-case letters. */
  lemma StateAcceptedIff(state: string)
    ensures StateAccepted(state) <==>
      exists w :: w in AcceptedStates &&
        |state| == |w| && forall i :: 0 <= i < |state| ==> state[i] == w[i] || state[i] == UpperChar(w[i])
  {
    forall w | w in AcceptedStates
      ensures IsLowerWord(w)
    {
    }
    forall w | w in AcceptedStates
      ensures ToLower(state) == w <==>
        |state| == |w| && forall i :: 0 <= i < |state| ==> state[i] == w[i] || state[i] == UpperChar(w[i])
    {
      ToLowerMatchesWord(state, w);
    }
  }

  /** Upper-case and mixed-case states pass; a misspelt or empty state does not. */
  lemma StateExamples()
    ensures StateAccepted("OPEN")
    ensures StateAccepted("closed")
    ensures StateAccepted("All")
    ensures !StateAccepted("opened")
    ensures !StateAccepted("")
  {
    assert ToLower("OPEN") == "open";
    assert ToLower("closed") == "closed";
    assert ToLower("All") == "all";
    assert ToLower("opened") == "opened";
  }

  /** With every flag missing and an unknown state, all six checks report,
      in run order, and the run exits with status 1. */
  lemma AllChecksReport()
    ensures Validate(Options(None, None, Some(""), None, None, "sometimes")) == AllChecks
    ensures Decide(Options(None, None, Some(""), None, None, "sometimes")) == Exit(1)
  {
  }
}
