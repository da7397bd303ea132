/** `PrepareTemplateData`: the values a comment template can use, computed
    from a diff result. The diff engine is not part of this model: its
    result is three maps keyed by resource identity plus the engine's own
    answer to `HasDifferences`, all supplied by the caller. */
module GitHubTemplate {
  import opened Results
  import opened Text
  import opened Decimal
  import opened ByteOrder

  /** The part of a diff result the template data reads. */
  datatype DiffResult<D, M> = DiffResult(
    added: map<string, D>,
    deleted: map<string, D>,
    modified: map<string, M>,
    hasDifferences: bool)

  /** `Vars` holds the user's template variables of any type `V`. */
  datatype TemplateData<V> = TemplateData(
    summary: string,
    details: string,
    hasChanges: bool,
    added: nat,
    deleted: nat,
    modified: nat,
    addedList: seq<string>,
    deletedList: seq<string>,
    modifiedList: seq<string>,
    link: string,
    vars: map<string, V>)

  const PlanPrefix := "Plan: "
  const AddWords := " to add, "
  const DeleteWords := " to delete, "
  const ModifyWords := " to modify"

  /** `Plan: <A> to add, <D> to delete, <M> to modify` with the counts in
      `%d` notation. */
  function Summary(a: nat, d: nat, m: nat): string {
    PlanPrefix + (FormatNat(a) + (AddWords + (FormatNat(d) + (DeleteWords + (FormatNat(m) + ModifyWords)))))
  }

  /** `s` without the literal `lit` in front, if it is there. */
  function Expect(s: string, lit: string): Option<string> {
    if HasPrefix(s, lit) then Some(s[|lit|..]) else None
  }

  /** Reads the three counts back out of a summary line. */
  function ParseSummary(s: string): Option<(nat, nat, nat)> {
    match Expect(s, PlanPrefix)
    case None => None
    case Some(s1) =>
      match ReadNat(s1)
      case None => None
      case Some((a, s2)) =>
        match Expect(s2, AddWords)
        case None => None
        case Some(s3) =>
          match ParseDeleteAndModify(s3)
          case None => None
          case Some((d, m)) => Some((a, d, m))
  }

  /** `<D> to delete, <M> to modify`. */
  function ParseDeleteAndModify(s: string): Option<(nat, nat)> {
    match ReadNat(s)
    case None => None
    case Some((d, s1)) =>
      match Expect(s1, DeleteWords)
      case None => None
      case Some(s2) =>
        match ParseModify(s2)
        case None => None
        case Some(m) => Some((d, m))
  }

  /** `<M> to modify`, and nothing after it. */
  function ParseModify(s: string): Option<nat> {
    match ReadNat(s)
    case None => None
    case Some((m, rest)) => if rest == ModifyWords then Some(m) else None
  }

  lemma ExpectLiteral(lit: string, rest: string)
    ensures Expect(lit + rest, lit) == Some(rest)
  {
    assert (lit + rest)[..|lit|] == lit;
    assert (lit + rest)[|lit|..] == rest;
  }

  /** The summary line determines the three counts: parsing it gives them
      back. */
  lemma SummaryRoundTrip(a: nat, d: nat, m: nat)
    ensures ParseSummary(Summary(a, d, m)) == Some((a, d, m))
  {
    var s5 := FormatNat(m) + ModifyWords;
    var s3 := FormatNat(d) + (DeleteWords + s5);
    var s1 := FormatNat(a) + (AddWords + s3);
    ReadFormatted(m, ModifyWords);
    assert ParseModify(s5) == Some(m);
    ReadFormatted(d, DeleteWords + s5);
    ExpectLiteral(DeleteWords, s5);
    assert ParseDeleteAndModify(s3) == Some((d, m));
    ExpectLiteral(PlanPrefix, s1);
    ReadFormatted(a, AddWords + s3);
    ExpectLiteral(AddWords, s3);
  }

  /** Different counts never give the same summary line. */
  lemma SummaryInjective(a: nat, d: nat, m: nat, a': nat, d': nat, m': nat)
    requires Summary(a, d, m) == Summary(a', d', m')
    ensures a == a' && d == d' && m == m'
  {
    SummaryRoundTrip(a, d, m);
    SummaryRoundTrip(a', d', m');
  }

  /** Counts, summary, the three key lists in ascending byte order, and the
      fields passed through. */
  method PrepareTemplateData<D, M, V>(result: DiffResult<D, M>, details: string, link: string,
                                      vars: map<string, V>)
    returns (data: TemplateData<V>)
    ensures data.added == |result.added| && data.deleted == |result.deleted|
      && data.modified == |result.modified|
    ensures ParseSummary(data.summary) == Some((data.added, data.deleted, data.modified))
    ensures data.summary == Summary(|result.added|, |result.deleted|, |result.modified|)
    ensures StrictlySorted(data.addedList) && (forall k :: k in data.addedList <==> k in result.added)
    ensures StrictlySorted(data.deletedList) && (forall k :: k in data.deletedList <==> k in result.deleted)
    ensures StrictlySorted(data.modifiedList) && (forall k :: k in data.modifiedList <==> k in result.modified)
    ensures |data.addedList| == data.added && |data.deletedList| == data.deleted
      && |data.modifiedList| == data.modified
    ensures data.details == details && data.link == link && data.vars == vars
    ensures data.hasChanges == result.hasDifferences
  {
    var added := |result.added|;
    var deleted := |result.deleted|;
    var modified := |result.modified|;
    var summary := Summary(added, deleted, modified);
    SummaryRoundTrip(added, deleted, modified);
    var addedList := SortedKeys(result.added);
    var deletedList := SortedKeys(result.deleted);
    var modifiedList := SortedKeys(result.modified);
    data := TemplateData(summary, details, result.hasDifferences, added, deleted, modified,
                         addedList, deletedList, modifiedList, link, vars);
  }
}
