/** The filtering half of `GetChangedYAMLFiles`: from the output of
    `git diff --name-only <branch>` keep the YAML files that still exist.
    Running git and `os.Stat` are passed in: `diffOutput` is the command's
    standard output (`None` when the command failed) and `statOk` says
    whether `os.Stat` succeeds on a name. */
module GitChangedFiles {
  import opened Results
  import opened Text
  import opened Seqs

  datatype ChangedFilesError = DiffFailed

  /** The file-name test applies to the UNTRIMMED line. */
  predicate IsYAMLName(line: string) {
    HasSuffix(line, ".yaml") || HasSuffix(line, ".yml")
  }

  /** A line is kept when its trimmed form is non-empty, the raw line ends
      in `.yaml` or `.yml`, and the trimmed name exists on disk. */
  predicate Accepted(line: string, statOk: string -> bool) {
    TrimSpace(line) != [] && IsYAMLName(line) && statOk(TrimSpace(line))
  }

  /** What one output line contributes: its trimmed name when accepted. */
  function Kept(line: string, statOk: string -> bool): seq<string> {
    if Accepted(line, statOk) then [TrimSpace(line)] else []
  }

  /** The loop over the output lines: accepted lines contribute their
      trimmed name, in order, without removing repeats. */
  function FilterChangedLines(lines: seq<string>, statOk: string -> bool): seq<string>
    decreases |lines|
  {
    if |lines| == 0 then [] else Kept(lines[0], statOk) + FilterChangedLines(lines[1..], statOk)
  }

  function GetChangedYAMLFiles(diffOutput: Option<string>, statOk: string -> bool): Result<seq<string>, ChangedFilesError> {
    match diffOutput
    case None => Err(DiffFailed)
    case Some(out) => Ok(FilterChangedLines(Split(out, '\n'), statOk))
  }

  /** The filter distributes over concatenation of its input: the output
      keeps input order and never merges or drops duplicates. */
  lemma {:induction false} FilterAppend(a: seq<string>, b: seq<string>, statOk: string -> bool)
    ensures FilterChangedLines(a + b, statOk) == FilterChangedLines(a, statOk) + FilterChangedLines(b, statOk)
    decreases |a|
  {
    if |a| == 0 {
      AppendEmpty(b);
    } else {
      ConsAppend(a, b);
      FilterAppend(a[1..], b, statOk);
      AppendAssoc(Kept(a[0], statOk), FilterChangedLines(a[1..], statOk), FilterChangedLines(b, statOk));
    }
  }

  /** A name is yielded exactly when some input line passes every test and
      trims to that name. */
  lemma {:induction false} FilterMembership(lines: seq<string>, statOk: string -> bool, name: string)
    ensures name in FilterChangedLines(lines, statOk) <==>
      exists i :: 0 <= i < |lines| && Accepted(lines[i], statOk) && TrimSpace(lines[i]) == name
    decreases |lines|
  {
    if |lines| > 0 {
      FilterMembership(lines[1..], statOk, name);
      if name in FilterChangedLines(lines[1..], statOk) {
        var i :| 0 <= i < |lines[1..]| && Accepted(lines[1..][i], statOk) && TrimSpace(lines[1..][i]) == name;
        assert lines[i + 1] == lines[1..][i];
      }
      if exists i :: 0 <= i < |lines| && Accepted(lines[i], statOk) && TrimSpace(lines[i]) == name {
        var i :| 0 <= i < |lines| && Accepted(lines[i], statOk) && TrimSpace(lines[i]) == name;
        if i > 0 {
          assert lines[1..][i - 1] == lines[i];
        }
      }
    }
  }

  /** What an accepted line yields: a non-empty name that exists, still
      ends in `.yaml` or `.yml`, and is the line without its leading white
      space (so a line with trailing white space is never accepted). */
  lemma AcceptedName(line: string, statOk: string -> bool)
    requires Accepted(line, statOk)
    ensures var name := TrimSpace(line);
      name != [] && statOk(name) && IsYAMLName(name) && !IsSpace(name[0]) && HasSuffix(line, name)
  {
    var name := TrimSpace(line);
    TrimSpaceEmptyIff(line);
    if HasSuffix(line, ".yaml") {
      NoSpaceIn(".yaml");
      TrimSpaceKeepsSolidSuffix(line, ".yaml");
      assert HasSuffix(name, ".yaml");
    } else {
      NoSpaceIn(".yml");
      TrimSpaceKeepsSolidSuffix(line, ".yml");
      assert HasSuffix(name, ".yml");
    }
  }

  lemma NoSpaceIn(x: string)
    requires x == ".yaml" || x == ".yml"
    ensures forall i :: 0 <= i < |x| ==> !IsSpace(x[i])
  {
  }

  /** Every yielded name has the shape `AcceptedName` describes. */
  lemma {:induction false} FilterYieldsYAMLNames(lines: seq<string>, statOk: string -> bool)
    ensures forall name :: name in FilterChangedLines(lines, statOk) ==>
      name != [] && statOk(name) && IsYAMLName(name) && !IsSpace(name[0])
    decreases |lines|
  {
    if |lines| > 0 {
      FilterYieldsYAMLNames(lines[1..], statOk);
      if Accepted(lines[0], statOk) {
        AcceptedName(lines[0], statOk);
      }
    }
  }

  /** A failing `git diff` is the only error. */
  lemma GetChangedYAMLFilesErrIff(diffOutput: Option<string>, statOk: string -> bool)
    ensures GetChangedYAMLFiles(diffOutput, statOk).Err? <==> diffOutput.None?
  {
  }
}
