/** `parseRepo` of the GitHub package: `owner/repo` split on `/`. */
module GitHubRepo {
  import opened Results
  import opened Text

  datatype Repository = Repository(owner: string, name: string)

  datatype RepoError = InvalidFormat(repo: string)

  /** Exactly two `/`-separated parts are required; either may be empty. */
  function ParseRepo(repo: string): Result<Repository, RepoError> {
    var parts := Split(repo, '/');
    if |parts| != 2 then Err(InvalidFormat(repo)) else Ok(Repository(parts[0], parts[1]))
  }

  /** Parsing succeeds exactly when the input holds one `/`. */
  lemma ParseRepoOkIff(repo: string)
    ensures ParseRepo(repo).Ok? <==> Count(repo, '/') == 1
  {
    SplitCount(repo, '/');
  }

  /** A parsed repository joins back to the input, and neither part holds
      a `/`. */
  lemma ParseRepoJoins(repo: string)
    requires ParseRepo(repo).Ok?
    ensures var r := ParseRepo(repo).value;
      r.owner + "/" + r.name == repo && '/' !in r.owner && '/' !in r.name
  {
    var parts := Split(repo, '/');
    JoinSplit(repo, '/');
    SplitPiecesFree(repo, '/');
    assert parts[1..] == [parts[1]];
  }

  /** Conversely, any owner and name without `/`, empty ones included,
      parse back from `owner/name`. */
  lemma ParseRepoOfJoined(owner: string, name: string)
    requires '/' !in owner && '/' !in name
    ensures ParseRepo(owner + "/" + name) == Ok(Repository(owner, name))
  {
    var parts := [owner, name];
    assert Join(parts, '/') == owner + "/" + name by {
      assert parts[1..] == [name];
    }
    SplitJoin(parts, '/');
  }
}
