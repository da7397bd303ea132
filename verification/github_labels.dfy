/** The decision part of `AddLabel` and `AddLabels`: whether the GitHub API
    is contacted, and with which labels. The token that `getClient` reads
    from `GITHUB_TOKEN` is a parameter; the API call itself is external,
    so the model yields the request it would make. */
module GitHubLabels {
  import opened GitHubRepo

  datatype LabelError = MissingToken | BadRepository(error: RepoError)

  /** What a label function does: return nil without calling the API,
      fail before the call, or send labels to an issue. */
  datatype LabelAction =
    | Skip
    | Fail(error: LabelError)
    | Send(owner: string, name: string, pr: int, labels: seq<string>)

  /** The labels that are not empty, in their original order. */
  function NonEmptyLabels(labels: seq<string>): seq<string>
    decreases |labels|
  {
    if |labels| == 0 then []
    else (if labels[0] != [] then [labels[0]] else []) + NonEmptyLabels(labels[1..])
  }

  /** From a non-empty label list: client first, then the repository. */
  function Request(repo: string, pr: int, labels: seq<string>, token: string): LabelAction {
    if token == [] then Fail(MissingToken)
    else
      match ParseRepo(repo)
      case Err(e) => Fail(BadRepository(e))
      case Ok(r) => Send(r.owner, r.name, pr, labels)
  }

  function AddLabels(repo: string, pr: int, labels: seq<string>, token: string): LabelAction {
    if |labels| == 0 then Skip
    else
      var valid := NonEmptyLabels(labels);
      if |valid| == 0 then Skip else Request(repo, pr, valid, token)
  }

  function AddLabel(repo: string, pr: int, lbl: string, token: string): LabelAction {
    if lbl == [] then Skip else Request(repo, pr, [lbl], token)
  }

  /** The filter distributes over concatenation, so it keeps order and
      repeats. */
  lemma {:induction false} NonEmptyLabelsAppend(a: seq<string>, b: seq<string>)
    ensures NonEmptyLabels(a + b) == NonEmptyLabels(a) + NonEmptyLabels(b)
    decreases |a|
  {
    if |a| == 0 {
      assert a + b == b;
    } else {
      assert (a + b)[0] == a[0];
      assert (a + b)[1..] == a[1..] + b;
      NonEmptyLabelsAppend(a[1..], b);
    }
  }

  /** A label survives exactly when it is in the input and not empty. */
  lemma {:induction false} NonEmptyLabelsMembership(labels: seq<string>, l: string)
    ensures l in NonEmptyLabels(labels) <==> l in labels && l != []
    decreases |labels|
  {
    if |labels| > 0 {
      NonEmptyLabelsMembership(labels[1..], l);
      assert labels == [labels[0]] + labels[1..];
    }
  }

  /** Nothing survives exactly when every label is empty. */
  lemma {:induction false} NonEmptyLabelsEmptyIff(labels: seq<string>)
    ensures NonEmptyLabels(labels) == [] <==> forall k :: 0 <= k < |labels| ==> labels[k] == []
    decreases |labels|
  {
    if |labels| > 0 {
      NonEmptyLabelsEmptyIff(labels[1..]);
      assert forall k :: 1 <= k < |labels| ==> labels[k] == labels[1..][k - 1];
    }
  }

  /** `AddLabels` returns nil without calling the API exactly when every
      label is empty, the empty list included. */
  lemma AddLabelsSkipIff(repo: string, pr: int, labels: seq<string>, token: string)
    ensures AddLabels(repo, pr, labels, token) == Skip <==> forall k :: 0 <= k < |labels| ==> labels[k] == []
  {
    NonEmptyLabelsEmptyIff(labels);
  }

  /** When the API is contacted it receives exactly the non-empty labels,
      in order, for the owner and name the repository string splits into;
      that needs a token and a well-formed repository. */
  lemma AddLabelsSend(repo: string, pr: int, labels: seq<string>, token: string)
    requires AddLabels(repo, pr, labels, token).Send?
    ensures var a := AddLabels(repo, pr, labels, token);
      && a.labels == NonEmptyLabels(labels) && a.labels != []
      && a.pr == pr && token != []
      && a.owner + "/" + a.name == repo
  {
    ParseRepoJoins(repo);
  }

  /** Without a token nothing is sent, even for a malformed repository:
      the client is created before the repository is parsed. */
  lemma AddLabelsNeedsToken(repo: string, pr: int, labels: seq<string>)
    ensures AddLabels(repo, pr, labels, []) == Skip || AddLabels(repo, pr, labels, []) == Fail(MissingToken)
  {
  }

  /** `AddLabel` behaves as `AddLabels` on the one-label list. */
  lemma AddLabelIsSingleton(repo: string, pr: int, lbl: string, token: string)
    ensures AddLabel(repo, pr, lbl, token) == AddLabels(repo, pr, [lbl], token)
  {
    assert [lbl][1..] == [];
    assert NonEmptyLabels([lbl]) == (if lbl != [] then [lbl] else []) + NonEmptyLabels([]);
  }
}
