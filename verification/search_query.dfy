/** The GitHub search request built by `fetchGithubIssues`: one query string
    naming the label and the repository of the fixed organisation, asking
    for one page of ten results. */
module SearchQuery {
  import opened Wrappers
  import opened Strings
  import opened Validation

  /** The GitHub organisation every repository is looked up in. */
  const Owner: string := "Datasembly"

  /** Results requested per page; only the first page is ever fetched. */
  const PageSize: nat := 10

  /** The text before the label. */
  const LabelPrefix: string := "label:\""

  /** The text between the label and the repository name. The state is
      always `open`, whatever the `--state` flag says. */
  const RepoPrefix: string := "\"+" + StateFilter + "+" + OrgFilter + "+repo:" + Owner + "/"

  /** The fixed state filter. */
  const StateFilter: string := "state:open"

  /** The fixed organisation filter. */
  const OrgFilter: string := "org:" + Owner

  /** A search call: the query and the page size. */
  datatype SearchRequest = SearchRequest(q: string, perPage: nat)

  /** `labelName` and `repo` placed after `prefix` and `middle` respectively. */
  function Assemble(prefix: string, labelName: string, middle: string, repo: string): string {
    prefix + labelName + middle + repo
  }

  /** The query for `labelName` in repository `repo` of the organisation. */
  function Query(labelName: string, repo: string): string {
    Assemble(LabelPrefix, labelName, RepoPrefix, repo)
  }

  /** A flag as a template literal renders it: an absent flag reads "undefined". */
  function Interpolate(x: Option<string>): string {
    x.GetOr("undefined")
  }

  /** The one search request of a run, built from the label and repository
      flags; the state flag plays no part. */
  function SearchFor(o: Options): (r: SearchRequest)
    ensures r.perPage == 10
    ensures LabelPrefix <= r.q
    ensures ParseQuery(r.q) == Some((Interpolate(o.issueLabel), Interpolate(o.githubRepo)))
        <==> '"' !in Interpolate(o.issueLabel)
  {
    QueryRoundTrip(Interpolate(o.issueLabel), Interpolate(o.githubRepo));
    SearchRequest(Query(Interpolate(o.issueLabel), Interpolate(o.githubRepo)), PageSize)
  }

  /** Splits `q` into the label, running from the end of `prefix` to the
      first double quote, and the repository, following `middle`. */
  function Disassemble(prefix: string, middle: string, q: string): (r: Option<(string, string)>)
    ensures r.Some? ==> q == Assemble(prefix, r.value.0, middle, r.value.1)
    ensures r.Some? ==> '"' !in r.value.0
  {
    if !(prefix <= q) then None
    else
      var rest := q[|prefix|..];
      var k := IndexOf(rest, '"');
      if k.None? then None
      else
        var tail := rest[k.value..];
        if middle <= tail then Some((rest[..k.value], tail[|middle|..]))
        else None
  }

  /** When `middle` starts with a double quote, a label free of double quotes
      and any repository are recovered from what `Assemble` builds. */
  lemma {:induction false} AssembleRoundTrip(prefix: string, labelName: string, middle: string, repo: string)
    requires |middle| > 0 && middle[0] == '"'
    ensures Disassemble(prefix, middle, Assemble(prefix, labelName, middle, repo)) == Some((labelName, repo))
        <==> '"' !in labelName
  {
    if '"' !in labelName {
      var q := Assemble(prefix, labelName, middle, repo);
      var rest := labelName + middle + repo;
      assert q == prefix + rest;
      assert q[|prefix|..] == rest;
      assert rest[|labelName|] == '"';
      var k := IndexOf(rest, '"');
      assert k.value <= |labelName|;
      assert k.value == |labelName|;
      assert rest[..k.value] == labelName;
      assert rest[k.value..] == middle + repo;
    }
  }

  /** Reads a query back into its label and repository. */
  function ParseQuery(q: string): (r: Option<(string, string)>)
    ensures r.Some? ==> q == Query(r.value.0, r.value.1) && '"' !in r.value.0
  {
    Disassemble(LabelPrefix, RepoPrefix, q)
  }

  /** A label without double quotes and any repository name are recovered
      from their query; a label with a double quote is not, since the query
      does not escape it. */
  lemma QueryRoundTrip(labelName: string, repo: string)
    ensures ParseQuery(Query(labelName, repo)) == Some((labelName, repo)) <==> '"' !in labelName
  {
    assert RepoPrefix[0] == '"';
    AssembleRoundTrip(LabelPrefix, labelName, RepoPrefix, repo);
  }

  /** Distinct quote-free labels, or distinct repositories, give distinct queries. */
  lemma QueryInjective(l1: string, r1: string, l2: string, r2: string)
    requires '"' !in l1 && '"' !in l2
    requires Query(l1, r1) == Query(l2, r2)
    ensures l1 == l2 && r1 == r2
  {
    QueryRoundTrip(l1, r1);
    QueryRoundTrip(l2, r2);
  }

  /** Nothing in the query is escaped: a label that itself contains the text
      between label and repository gives the same query as a different,
      shorter label with a longer repository name. */
  lemma EmbeddedMiddleIsAmbiguous(a: string, b: string, c: string)
    ensures Query(a + RepoPrefix + b, c) == Query(a, b + RepoPrefix + c)
    ensures a + RepoPrefix + b != a
  {
  }

  /** The `--state` flag does not reach the query. */
  lemma SearchIgnoresState(o: Options, state: string)
    ensures SearchFor(o.(state := state)) == SearchFor(o)
  {
  }

  /** Every query holds the quoted label, the `state:open` filter, the
      organisation filter and the repository qualified by the organisation,
      at strictly increasing positions. */
  lemma QueryFiltersOpen(labelName: string, repo: string)
    ensures exists i, j, k, m :: 0 <= i < j < k < m
              && OccursAt(Query(labelName, repo), LabelPrefix + labelName + "\"", i)
              && OccursAt(Query(labelName, repo), StateFilter, j)
              && OccursAt(Query(labelName, repo), OrgFilter, k)
              && OccursAt(Query(labelName, repo), "repo:" + Owner + "/" + repo, m)
  {
    var lab := LabelPrefix + labelName + "\"";
    var rp := "repo:" + Owner + "/" + repo;
    assert RepoPrefix == "\"" + "+" + StateFilter + "+" + OrgFilter + "+" + "repo:" + Owner + "/";
    assert Query(labelName, repo) == lab + "+" + StateFilter + "+" + OrgFilter + "+" + rp;
    JoinedPiecesOccur(lab, "+", StateFilter, "+", OrgFilter, "+", rp);
    assert 0 < |lab + "+"| < |lab + "+" + StateFilter + "+"| < |lab + "+" + StateFilter + "+" + OrgFilter + "+"|;
  }
}
