/** What the two file loops of the git package share: `cleanYAMLContent`,
    which drops the leading lines of a YAML text that are blank, comments
    or bare `---` separators, so that no empty leading document reaches
    the YAML decoder, and keeps every line from the first real one on,
    verbatim; and the revision argument both loops hand to `git show`. */
module GitClean {
  import opened Text

  /** `<branch>:<file>`, the object name of `file` as of `branch`. */
  function Revision(branch: string, file: string): string {
    branch + ":" + file
  }

  /** A line the cleaner skips while it is still before the first real
      line: after trimming it starts with `#`, is empty, or is `---`. */
  predicate IsLeadingNoise(line: string) {
    var t := TrimSpace(line);
    HasPrefix(t, "#") || |t| == 0 || t == "---"
  }

  /** Index of the first line that is not leading noise (`|lines|` when
      every line is noise); `FirstContentLineIsFirst` says so. */
  function FirstContentLine(lines: seq<string>): (k: nat)
    ensures k <= |lines|
    decreases |lines|
  {
    if |lines| == 0 then 0
    else if IsLeadingNoise(lines[0]) then 1 + FirstContentLine(lines[1..])
    else 0
  }

  /** Every line before the index is noise and the line at it is not. */
  lemma {:induction false} FirstContentLineIsFirst(lines: seq<string>)
    ensures var k := FirstContentLine(lines);
      && (forall i :: 0 <= i < k ==> IsLeadingNoise(lines[i]))
      && (k < |lines| ==> !IsLeadingNoise(lines[k]))
    decreases |lines|
  {
    if |lines| > 0 && IsLeadingNoise(lines[0]) {
      FirstContentLineIsFirst(lines[1..]);
      forall i | 0 < i < FirstContentLine(lines) ensures IsLeadingNoise(lines[i]) {
        assert lines[i] == lines[1..][i - 1];
      }
    }
  }

  /** The cleaned content: the `\n`-split lines from the first real one
      on, re-joined with `\n`; empty when no real line exists. */
  function CleanYAMLContent(content: string): string {
    var lines := Split(content, '\n');
    var kept := lines[FirstContentLine(lines)..];
    if |kept| == 0 then [] else Join(kept, '\n')
  }

  /** An empty line is always noise; equivalently a real line is never
      empty. */
  lemma EmptyLineIsNoise()
    ensures IsLeadingNoise([])
  {
    assert TrimSpace([]) == [];
  }

  /** A bare `---` line is noise. */
  lemma SeparatorLineIsNoise()
    ensures IsLeadingNoise("---")
  {
    assert TrimLeft("---") == "---";
    assert TrimRight("---") == "---";
  }

  /** The cleaned text is a suffix of the input: the cleaner only ever
      removes a prefix of whole lines (and their newlines). */
  lemma CleanIsSuffix(content: string)
    ensures HasSuffix(content, CleanYAMLContent(content))
  {
    var lines := Split(content, '\n');
    var k := FirstContentLine(lines);
    JoinSplit(content, '\n');
    if 0 < k < |lines| {
      assert lines == lines[..k] + lines[k..];
      JoinAppend(lines[..k], lines[k..], '\n');
    } else if k == 0 {
      assert lines[k..] == lines;
    }
  }

  /** The cleaned text is empty exactly when every input line is leading
      noise. */
  lemma CleanEmptyIff(content: string)
    ensures CleanYAMLContent(content) == [] <==>
      forall i :: 0 <= i < |Split(content, '\n')| ==> IsLeadingNoise(Split(content, '\n')[i])
  {
    var lines := Split(content, '\n');
    var k := FirstContentLine(lines);
    FirstContentLineIsFirst(lines);
    if k < |lines| {
      JoinStartsWithFirst(lines[k..], '\n');
      EmptyLineIsNoise();
      assert lines[k..][0] == lines[k] != [];
      assert CleanYAMLContent(content) == Join(lines[k..], '\n');
      assert |Join(lines[k..], '\n')| > 0;
      assert CleanYAMLContent(content) != [];
      assert !IsLeadingNoise(Split(content, '\n')[k]);
    }
  }

  /** When the cleaned text is non-empty, its lines are exactly a suffix of
      the input's lines, kept verbatim and in order; every dropped line is
      leading noise, and the first kept line is not. */
  lemma CleanKeepsTail(content: string)
    requires CleanYAMLContent(content) != []
    ensures var lines := Split(content, '\n');
      var out := Split(CleanYAMLContent(content), '\n');
      && |out| <= |lines|
      && out == lines[|lines| - |out|..]
      && (forall i :: 0 <= i < |lines| - |out| ==> IsLeadingNoise(lines[i]))
      && !IsLeadingNoise(out[0])
  {
    var lines := Split(content, '\n');
    var k := FirstContentLine(lines);
    FirstContentLineIsFirst(lines);
    SplitPiecesFree(content, '\n');
    var kept := lines[k..];
    assert forall j :: 0 <= j < |kept| ==> '\n' !in kept[j] by {
      forall j | 0 <= j < |kept| ensures '\n' !in kept[j] {
        assert kept[j] == lines[k + j];
      }
    }
    SplitJoin(kept, '\n');
  }

  /** Cleaning is idempotent. */
  lemma CleanIdempotent(content: string)
    ensures CleanYAMLContent(CleanYAMLContent(content)) == CleanYAMLContent(content)
  {
    var r := CleanYAMLContent(content);
    if r == [] {
      assert Split(r, '\n') == [[]];
      EmptyLineIsNoise();
    } else {
      CleanKeepsTail(content);
      var out := Split(r, '\n');
      assert FirstContentLine(out) == 0;
      assert out[0..] == out;
      JoinSplit(r, '\n');
    }
  }

  /** A text whose first line is exactly `---` has `---` as its first
      piece; `r + "\n"` covers both a text that continues after that line
      and a text that is nothing but `---`. */
  lemma FirstPieceOfSeparatorStart(r: string)
    requires HasPrefix(r + "\n", "---\n")
    ensures Split(r, '\n')[0] == "---"
  {
    var t := r + "\n";
    assert t[..4] == "---\n";
    assert |r| >= 3;
    assert r[0] == t[0] == '-';
    assert r[1] == t[1] == '-';
    assert r[2] == t[2] == '-';
    if |r| > 3 {
      assert r[3] == t[3] == '\n';
    }
    IndexOfIs(r, '\n', 3);
    assert r[..3] == "---";
  }

  /** The first line of a cleaned text is never a bare `---`: neither the
      text nor the text with a newline appended starts with a `---` line. */
  lemma CleanNeverStartsWithSeparator(content: string)
    ensures !HasPrefix(CleanYAMLContent(content) + "\n", "---\n")
  {
    var r := CleanYAMLContent(content);
    if HasPrefix(r + "\n", "---\n") {
      assert r != [];
      CleanKeepsTail(content);
      FirstPieceOfSeparatorStart(r);
      SeparatorLineIsNoise();
      assert false;
    }
  }
}
