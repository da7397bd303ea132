/** `CombineFilesForComparison`: builds two YAML streams, one from every
    file's version on a branch and one from its current version, each file
    cleaned and separated from the previous one by a `---` line.
    `git show` and `os.ReadFile` are passed in as `show` and `read`
    (`None` when they fail); the two temporary files are modelled as the
    text written to them. */
module GitCombine {
  import opened Results
  import opened Text
  import opened GitClean
  import opened Seqs

  datatype Streams = Streams(oldStream: string, newStream: string)

  datatype CombineError = ReadFailed(file: string)

  /** What the loop writes for the `i`-th file once its content has been
      cleaned: nothing for an empty text; otherwise a `---` line unless it
      is the first file, the text, and a newline if the text lacks one. */
  function Chunk(i: nat, cleaned: string): string {
    if |cleaned| == 0 then []
    else
      (if i > 0 then "---\n" else [])
      + cleaned
      + (if cleaned[|cleaned| - 1] != '\n' then "\n" else [])
  }

  /** The chunk a collaborator's answer adds to a stream: nothing when it
      failed (for `git show`: the file is new on this branch), otherwise
      the chunk of its cleaned text. */
  function AnswerChunk(i: nat, answer: Option<string>, clean: string -> string): string {
    match answer
    case None => []
    case Some(text) => Chunk(i, clean(text))
  }

  /** The streams for `files[i..]`, or the first unreadable file. The
      cleaner is a parameter so that the assembly rules are stated apart
      from it; the source always uses `CleanYAMLContent`. */
  function AssembleFrom(branch: string, files: seq<string>, i: nat,
                        show: string -> Option<string>, read: string -> Option<string>,
                        clean: string -> string): Result<Streams, CombineError>
    requires i <= |files|
    decreases |files| - i
  {
    if i == |files| then Ok(Streams([], []))
    else
      match read(files[i])
      case None => Err(ReadFailed(files[i]))
      case Some(_) =>
        match AssembleFrom(branch, files, i + 1, show, read, clean)
        case Err(e) => Err(e)
        case Ok(rest) =>
          Ok(Streams(AnswerChunk(i, show(Revision(branch, files[i])), clean) + rest.oldStream,
                     AnswerChunk(i, read(files[i]), clean) + rest.newStream))
  }

  /** The texts of the two temporary files for all of `files`. */
  function AssembleStreams(branch: string, files: seq<string>,
                           show: string -> Option<string>, read: string -> Option<string>): Result<Streams, CombineError>
  {
    AssembleFrom(branch, files, 0, show, read, CleanYAMLContent)
  }

  /** Writes `oldPart` and `newPart` in front of the streams of a successful
      assembly; an error passes through. */
  function Prefixed(oldPart: string, newPart: string, r: Result<Streams, CombineError>): Result<Streams, CombineError> {
    match r
    case Err(e) => Err(e)
    case Ok(s) => Ok(Streams(oldPart + s.oldStream, newPart + s.newStream))
  }

  /** One step of the assembly: a readable file puts its two chunks in
      front of the streams of the files after it. */
  lemma AssembleStep(branch: string, files: seq<string>, i: nat,
                     show: string -> Option<string>, read: string -> Option<string>,
                     clean: string -> string)
    requires i < |files|
    requires read(files[i]).Some?
    ensures AssembleFrom(branch, files, i, show, read, clean)
      == Prefixed(AnswerChunk(i, show(Revision(branch, files[i])), clean),
                  AnswerChunk(i, read(files[i]), clean),
                  AssembleFrom(branch, files, i + 1, show, read, clean))
  {
  }

  lemma PrefixedTwice(a: string, b: string, c: string, d: string, r: Result<Streams, CombineError>)
    ensures Prefixed(a, b, Prefixed(c, d, r)) == Prefixed(a + c, b + d, r)
  {
    match r {
      case Err(e) =>
      case Ok(s) =>
        assert a + (c + s.oldStream) == (a + c) + s.oldStream;
        assert b + (d + s.newStream) == (b + d) + s.newStream;
    }
  }

  /** Appends one file's cleaned text to a stream buffer as the loop does:
      a `---` line unless it is the first file, the text, and a newline if
      the text lacks one; an empty text writes nothing. */
  method WriteChunk(buf: string, i: nat, cleaned: string) returns (out: string)
    ensures out == buf + Chunk(i, cleaned)
  {
    out := buf;
    if |cleaned| > 0 {
      ghost var sep: string := [];
      ghost var nl: string := [];
      if i > 0 {
        out := out + "---\n";
        sep := "---\n";
      }
      out := out + cleaned;
      if cleaned[|cleaned| - 1] != '\n' {
        out := out + "\n";
        nl := "\n";
      }
      assert out == buf + sep + cleaned + nl;
      assert Chunk(i, cleaned) == sep + cleaned + nl;
      assert buf + sep + cleaned + nl == buf + (sep + cleaned + nl);
    } else {
      assert buf + [] == buf;
    }
  }

  /** The loop of the source, writing to the two buffers file by file with
      a given cleaner; it produces exactly the assembled streams. */
  method CombineWith(branch: string, files: seq<string>,
                     show: string -> Option<string>, read: string -> Option<string>,
                     clean: string -> string)
    returns (res: Result<Streams, CombineError>)
    ensures res == AssembleFrom(branch, files, 0, show, read, clean)
  {
    var oldBuf: string := [];
    var newBuf: string := [];
    var i := 0;
    assert Prefixed(oldBuf, newBuf, AssembleFrom(branch, files, 0, show, read, clean)) == AssembleFrom(branch, files, 0, show, read, clean) by {
      match AssembleFrom(branch, files, 0, show, read, clean) {
        case Err(e) =>
        case Ok(s) => assert [] + s.oldStream == s.oldStream && [] + s.newStream == s.newStream;
      }
    }
    while i < |files|
      invariant i <= |files|
      invariant AssembleFrom(branch, files, 0, show, read, clean)
        == Prefixed(oldBuf, newBuf, AssembleFrom(branch, files, i, show, read, clean))
      decreases |files| - i
    {
      var file := files[i];
      var answer := show(Revision(branch, file));
      var content := read(file);
      if content.None? {
        assert AssembleFrom(branch, files, i, show, read, clean) == Err(ReadFailed(file));
        return Err(ReadFailed(file));
      }
      AssembleStep(branch, files, i, show, read, clean);
      PrefixedTwice(oldBuf, newBuf, AnswerChunk(i, answer, clean), AnswerChunk(i, content, clean),
                    AssembleFrom(branch, files, i + 1, show, read, clean));
      if answer.Some? {
        oldBuf := WriteChunk(oldBuf, i, clean(answer.value));
      } else {
        assert AnswerChunk(i, answer, clean) == [];
        assert oldBuf + [] == oldBuf;
      }
      newBuf := WriteChunk(newBuf, i, clean(content.value));
      i := i + 1;
    }
    assert oldBuf + [] == oldBuf && newBuf + [] == newBuf;
    res := Ok(Streams(oldBuf, newBuf));
  }

  /** `CombineFilesForComparison`: the loop run with `CleanYAMLContent`. */
  method CombineFilesForComparison(branch: string, files: seq<string>,
                                   show: string -> Option<string>, read: string -> Option<string>)
    returns (res: Result<Streams, CombineError>)
    ensures res == AssembleStreams(branch, files, show, read)
  {
    res := CombineWith(branch, files, show, read, CleanYAMLContent);
  }

  /** A chunk is empty exactly when the cleaned text is; otherwise it ends
      in a newline, holds the cleaned text verbatim right after the
      separator, gains one newline exactly when the text lacked one, and
      starts with a `---` line when it is not the first file's. */
  lemma ChunkShape(i: nat, cleaned: string)
    ensures var chunk := Chunk(i, cleaned);
      && (chunk == [] <==> cleaned == [])
      && (cleaned != [] ==>
            var sep := if i > 0 then 4 else 0;
            && chunk[|chunk| - 1] == '\n'
            && chunk[sep..sep + |cleaned|] == cleaned
            && |chunk| == sep + |cleaned| + (if cleaned[|cleaned| - 1] == '\n' then 0 else 1)
            && (i > 0 ==> HasPrefix(chunk, "---\n")))
  {
  }

  /** For a cleaned text the converse holds too: its chunk starts with a
      `---` line exactly when it is not the first file's, because a
      cleaned text never begins with such a line. */
  lemma ChunkSeparatorIff(i: nat, content: string)
    requires CleanYAMLContent(content) != []
    ensures HasPrefix(Chunk(i, CleanYAMLContent(content)), "---\n") <==> i > 0
  {
    CleanNeverStartsWithSeparator(content);
    var c := CleanYAMLContent(content);
    if i == 0 {
      assert |Chunk(i, c)| < 4 || Chunk(i, c)[..4] == (c + "\n")[..4];
    }
  }

  /** Assembly succeeds exactly when every current file can be read; a
      missing branch version is never an error. */
  lemma {:induction false} AssembleOkIff(branch: string, files: seq<string>, i: nat,
                                         show: string -> Option<string>, read: string -> Option<string>,
                                         clean: string -> string)
    requires i <= |files|
    ensures AssembleFrom(branch, files, i, show, read, clean).Ok? <==>
      forall j :: i <= j < |files| ==> read(files[j]).Some?
    decreases |files| - i
  {
    if i < |files| {
      AssembleOkIff(branch, files, i + 1, show, read, clean);
      AssembleOkStep(branch, files, i, show, read, clean);
      assert (forall j :: i <= j < |files| ==> read(files[j]).Some?) <==>
        read(files[i]).Some? && (forall j :: i + 1 <= j < |files| ==> read(files[j]).Some?);
    }
  }

  /** One file further: assembly from `i` succeeds when file `i` is
      readable and the assembly after it succeeds. */
  lemma AssembleOkStep(branch: string, files: seq<string>, i: nat,
                       show: string -> Option<string>, read: string -> Option<string>,
                       clean: string -> string)
    requires i < |files|
    ensures AssembleFrom(branch, files, i, show, read, clean).Ok? <==>
      read(files[i]).Some? && AssembleFrom(branch, files, i + 1, show, read, clean).Ok?
  {
  }

  /** The error names the first file that cannot be read. */
  lemma {:induction false} AssembleFirstError(branch: string, files: seq<string>, i: nat, j: nat,
                                              show: string -> Option<string>, read: string -> Option<string>,
                                              clean: string -> string)
    requires i <= j < |files|
    requires read(files[j]).None?
    requires forall k :: i <= k < j ==> read(files[k]).Some?
    ensures AssembleFrom(branch, files, i, show, read, clean) == Err(ReadFailed(files[j]))
    decreases |files| - i
  {
    if i < j {
      AssembleFirstError(branch, files, i + 1, j, show, read, clean);
    }
  }

  /** Empty, or ending in a newline. */
  predicate EndsLine(s: string) {
    s == [] || s[|s| - 1] == '\n'
  }

  lemma EndsLineAppend(a: string, b: string)
    requires EndsLine(a) && EndsLine(b)
    ensures EndsLine(a + b)
  {
    if b != [] {
      assert (a + b)[|a + b| - 1] == b[|b| - 1];
    }
  }

  lemma AnswerChunkEndsLine(i: nat, answer: Option<string>, clean: string -> string)
    ensures EndsLine(AnswerChunk(i, answer, clean))
  {
    match answer {
      case None =>
      case Some(text) => ChunkShape(i, clean(text));
    }
  }

  /** Every chunk ends in a newline, so both streams are empty or end in
      one, and each `---` separator starts a line of its own. */
  lemma {:induction false} AssembleEndsInNewline(branch: string, files: seq<string>, i: nat,
                                                 show: string -> Option<string>, read: string -> Option<string>,
                                                 clean: string -> string, s: Streams)
    requires i <= |files|
    requires AssembleFrom(branch, files, i, show, read, clean) == Ok(s)
    ensures EndsLine(s.oldStream) && EndsLine(s.newStream)
    decreases |files| - i
  {
    if i < |files| {
      AssembleOkStep(branch, files, i, show, read, clean);
      var rest := AssembleFrom(branch, files, i + 1, show, read, clean).value;
      AssembleEndsInNewline(branch, files, i + 1, show, read, clean, rest);
      var oldChunk := AnswerChunk(i, show(Revision(branch, files[i])), clean);
      var newChunk := AnswerChunk(i, read(files[i]), clean);
      AssembleStep(branch, files, i, show, read, clean);
      assert s == Streams(oldChunk + rest.oldStream, newChunk + rest.newStream);
      AnswerChunkEndsLine(i, show(Revision(branch, files[i])), clean);
      AnswerChunkEndsLine(i, read(files[i]), clean);
      EndsLineAppend(oldChunk, rest.oldStream);
      EndsLineAppend(newChunk, rest.newStream);
    }
  }

  /** A collaborator's answer that adds nothing to a stream: a failure, or
      a text that cleans to nothing. */
  predicate ContributesNothing(answer: Option<string>, clean: string -> string) {
    match answer
    case None => true
    case Some(text) => clean(text) == []
  }

  /** An answer's chunk is empty exactly when it contributes nothing. */
  lemma AnswerChunkEmptyIff(i: nat, answer: Option<string>, clean: string -> string)
    ensures AnswerChunk(i, answer, clean) == [] <==> ContributesNothing(answer, clean)
  {
    match answer {
      case None =>
      case Some(text) => ChunkShape(i, clean(text));
    }
  }

  /** A file contributes to the new stream exactly when its cleaned current
      content is non-empty, and to the old stream exactly when it exists on
      the branch and its cleaned content there is non-empty. */
  lemma {:induction false} AssembleEmptyIff(branch: string, files: seq<string>, i: nat,
                                            show: string -> Option<string>, read: string -> Option<string>,
                                            clean: string -> string, s: Streams)
    requires i <= |files|
    requires AssembleFrom(branch, files, i, show, read, clean) == Ok(s)
    ensures s.newStream == [] <==> forall j :: i <= j < |files| ==> ContributesNothing(read(files[j]), clean)
    ensures s.oldStream == [] <==> forall j :: i <= j < |files| ==> ContributesNothing(show(Revision(branch, files[j])), clean)
    decreases |files| - i
  {
    if i < |files| {
      AssembleOkStep(branch, files, i, show, read, clean);
      var rest := AssembleFrom(branch, files, i + 1, show, read, clean).value;
      AssembleEmptyIff(branch, files, i + 1, show, read, clean, rest);
      var oldAnswer, newAnswer := show(Revision(branch, files[i])), read(files[i]);
      var oldChunk, newChunk := AnswerChunk(i, oldAnswer, clean), AnswerChunk(i, newAnswer, clean);
      AssembleStep(branch, files, i, show, read, clean);
      assert s == Streams(oldChunk + rest.oldStream, newChunk + rest.newStream);
      AnswerChunkEmptyIff(i, oldAnswer, clean);
      AnswerChunkEmptyIff(i, newAnswer, clean);
      AppendIsEmpty(oldChunk, rest.oldStream);
      AppendIsEmpty(newChunk, rest.newStream);
      assert (forall j :: i <= j < |files| ==> ContributesNothing(read(files[j]), clean)) <==>
        ContributesNothing(newAnswer, clean) && (forall j :: i + 1 <= j < |files| ==> ContributesNothing(read(files[j]), clean));
      assert (forall j :: i <= j < |files| ==> ContributesNothing(show(Revision(branch, files[j])), clean)) <==>
        ContributesNothing(oldAnswer, clean) && (forall j :: i + 1 <= j < |files| ==> ContributesNothing(show(Revision(branch, files[j])), clean));
    }
  }
}
