/**
 * AQL query construction in the JFrog client (jfrog_client.py). The HTTP
 * exchange is a function parameter `post` from the query text to the
 * outcome of the request; the model fixes what text is sent and how the
 * outcome becomes the returned dictionary.
 */
module JfrogClient {
  import opened Wrappers
  import opened Text
  import opened AqlCache

  /** The outcome of one POST: an exception, or a status code with a body that may fail to parse. */
  datatype HttpOutcome = RequestError | Reply(status: int, json: Option<AqlData>)

  /** A 200 reply with a parsed body gives that body; everything else gives `{}`. */
  function ReplyData(outcome: HttpOutcome): AqlData {
    if outcome.Reply? && outcome.status == 200 && outcome.json.Some? then outcome.json.value else EmptyData
  }

  /** The base URL without trailing `/` (`rstrip('/')`). */
  function StripTrailingSlashes(url: string): (r: string)
    ensures |r| <= |url| && url[..|r|] == r
    ensures forall i :: |r| <= i < |url| ==> url[i] == '/'
    ensures r == [] || r[|r| - 1] != '/'
    decreases |url|
  {
    if |url| > 0 && url[|url| - 1] == '/' then StripTrailingSlashes(url[..|url| - 1]) else url
  }

  /** `(base_url or os.environ["JFROG_BASE_URL"]).rstrip('/')`. */
  function BaseUrl(baseUrl: Option<string>, environmentUrl: string): (r: string)
    ensures var chosen := if baseUrl.Some? && baseUrl.value != "" then baseUrl.value else environmentUrl;
      |r| <= |chosen| && chosen[..|r|] == r && forall i :: |r| <= i < |chosen| ==> chosen[i] == '/'
    ensures r == [] || r[|r| - 1] != '/'
  {
    StripTrailingSlashes(if baseUrl.Some? && baseUrl.value != "" then baseUrl.value else environmentUrl)
  }

  function AqlEndpoint(base: string): string {
    base + "/artifactory/api/search/aql"
  }

  const FullQueryHead := "items.find({\"repo\": {\"$eq\": \""
  const FullQueryTail := "\"}, \"type\": \"file\"}).include(\"property\")"

  /** The full-repository query text. */
  function FullQuery(repo: string): string {
    FullQueryHead + repo + FullQueryTail
  }

  /** The repository name appears verbatim, so the query text determines it. */
  lemma FullQueryDeterminesRepo(a: string, b: string)
    requires FullQuery(a) == FullQuery(b)
    ensures a == b
  {
    var qa := FullQuery(a);
    assert |a| == |b|;
    assert qa[|FullQueryHead|..|FullQueryHead| + |a|] == a;
    assert FullQuery(b)[|FullQueryHead|..|FullQueryHead| + |b|] == b;
  }

  /** `query_aql_artifacts`: POST the full query; a failed request gives `{}`. */
  function QueryAqlArtifacts(repo: string, post: string -> HttpOutcome): (d: AqlData)
    ensures var q := post(FullQuery(repo));
      if q.Reply? && q.status == 200 && q.json.Some? then d == q.json.value else d == EmptyData
    ensures FullQuery(repo)[|FullQueryHead|..|FullQueryHead| + |repo|] == repo
  {
    ReplyData(post(FullQuery(repo)))
  }

  /** One `$or` condition for a `(path, name)` pair. */
  function Clause(pair: (string, string)): string {
    "{\"path\": {\"$eq\": \"" + pair.0 + "\"}, \"name\": {\"$eq\": \"" + pair.1 + "\"}}"
  }

  function Clauses(pairs: seq<(string, string)>): (cs: seq<string>)
    ensures |cs| == |pairs|
    ensures forall i :: 0 <= i < |pairs| ==> cs[i] == Clause(pairs[i])
  {
    seq(|pairs|, i requires 0 <= i < |pairs| => Clause(pairs[i]))
  }

  const SpecificQueryHead := "items.find({\"repo\": {\"$eq\": \""
  const SpecificQueryMiddle := "\"}, \"$or\": ["
  const SpecificQueryTail := "]}).include(\"property\")"

  /** The targeted query: the repository predicate first, then one clause per pair joined by `, `. */
  function SpecificQuery(repo: string, pairs: seq<(string, string)>): string {
    SpecificQueryHead + repo + SpecificQueryMiddle + JoinWith(Clauses(pairs), ", ") + SpecificQueryTail
  }

  /** A clause holds its path and name verbatim. */
  lemma ClauseHasPathAndName(pair: (string, string))
    ensures Contains(Clause(pair), pair.0)
    ensures Contains(Clause(pair), pair.1)
  {
    ContainsSelf(pair.0);
    ContainsPrepend("{\"path\": {\"$eq\": \"", pair.0, pair.0);
    ContainsAppend("{\"path\": {\"$eq\": \"" + pair.0, "\"}, \"name\": {\"$eq\": \"", pair.0);
    ContainsAppend("{\"path\": {\"$eq\": \"" + pair.0 + "\"}, \"name\": {\"$eq\": \"", pair.1, pair.0);
    ContainsAppend("{\"path\": {\"$eq\": \"" + pair.0 + "\"}, \"name\": {\"$eq\": \"" + pair.1, "\"}}", pair.0);
    ContainsSelf(pair.1);
    ContainsPrepend("{\"path\": {\"$eq\": \"" + pair.0 + "\"}, \"name\": {\"$eq\": \"", pair.1, pair.1);
    ContainsAppend("{\"path\": {\"$eq\": \"" + pair.0 + "\"}, \"name\": {\"$eq\": \"" + pair.1, "\"}}", pair.1);
  }

  /** Every pair's clause occurs in the targeted query, and so does the repository name. */
  lemma SpecificQueryHasEveryClause(repo: string, pairs: seq<(string, string)>, i: nat)
    requires i < |pairs|
    ensures Contains(SpecificQuery(repo, pairs), Clause(pairs[i]))
    ensures Contains(SpecificQuery(repo, pairs), repo)
  {
    var joined := JoinWith(Clauses(pairs), ", ");
    var front := SpecificQueryHead + repo + SpecificQueryMiddle;
    JoinWithContainsPart(Clauses(pairs), ", ", i);
    ContainsPrepend(front, joined, Clause(pairs[i]));
    ContainsAppend(front + joined, SpecificQueryTail, Clause(pairs[i]));
    ContainsSelf(repo);
    ContainsPrepend(SpecificQueryHead, repo, repo);
    ContainsAppend(SpecificQueryHead + repo, SpecificQueryMiddle, repo);
    ContainsAppend(front, joined, repo);
    ContainsAppend(front + joined, SpecificQueryTail, repo);
  }

  /** Paths and names appear verbatim, without escaping, in the targeted query. */
  lemma SpecificQueryHasEveryPathAndName(repo: string, pairs: seq<(string, string)>, i: nat)
    requires i < |pairs|
    ensures Contains(SpecificQuery(repo, pairs), pairs[i].0)
    ensures Contains(SpecificQuery(repo, pairs), pairs[i].1)
  {
    SpecificQueryHasEveryClause(repo, pairs, i);
    ClauseHasPathAndName(pairs[i]);
    ContainsTransitive(SpecificQuery(repo, pairs), Clause(pairs[i]), pairs[i].0);
    ContainsTransitive(SpecificQuery(repo, pairs), Clause(pairs[i]), pairs[i].1);
  }

  /** A single pair gives a single clause, with no separator. */
  lemma SpecificQueryOfOnePair(repo: string, path: string, name: string)
    ensures SpecificQuery(repo, [(path, name)])
         == SpecificQueryHead + repo + SpecificQueryMiddle + Clause((path, name)) + SpecificQueryTail
  {
    assert Clauses([(path, name)]) == [Clause((path, name))];
  }

  /**
   * `query_aql_specific_artifacts`. Returns the response and the query text
   * that was posted: with no pairs nothing is posted and the result is `{}`.
   */
  method QueryAqlSpecificArtifacts(repo: string, pairs: seq<(string, string)>, post: string -> HttpOutcome)
    returns (data: AqlData, sent: Option<string>)
    ensures |pairs| == 0 ==> data == EmptyData && sent == None
    ensures |pairs| > 0 ==> sent == Some(SpecificQuery(repo, pairs)) && data == ReplyData(post(SpecificQuery(repo, pairs)))
  {
    if |pairs| == 0 {
      return EmptyData, None;
    }
    var orConditions: seq<string> := [];
    for i := 0 to |pairs|
      invariant orConditions == Clauses(pairs[..i])
    {
      orConditions := orConditions + [Clause(pairs[i])];
    }
    assert pairs[..|pairs|] == pairs;
    var orClause := JoinWith(orConditions, ", ");
    var query := SpecificQueryHead + repo + SpecificQueryMiddle + orClause + SpecificQueryTail;
    data := ReplyData(post(query));
    sent := Some(query);
  }
}
