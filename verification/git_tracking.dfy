/** `ParseFilesWithSourceTracking`: for every file, decode its version on a
    branch and its current version into documents tagged with the file
    they came from. `git show`, `os.ReadFile`, the YAML decoder and
    `yaml.Marshal` are passed in: `show` and `read` answer `None` when they
    fail, `decode` answers the documents of a stream, or `None` when some
    document in it fails to decode, and `marshal` re-serialises one
    document. `V` stands for a decoded YAML mapping. */
module GitSourceTracking {
  import opened Results
  import opened GitClean

  /** One decoded document with its canonical text and originating file. */
  datatype Document<V> = Document(content: V, raw: string, sourceFile: string)

  datatype DocumentSets<V> = DocumentSets(oldDocs: seq<Document<V>>, newDocs: seq<Document<V>>)

  datatype TrackingError =
    | OldParseFailed(file: string)
    | ReadFailed(file: string)
    | NewParseFailed(file: string)

  /** Each decoded value becomes a document tagged with `file`. */
  function Tag<V>(values: seq<V>, file: string, marshal: V -> string): seq<Document<V>> {
    seq(|values|, k requires 0 <= k < |values| => Document(values[k], marshal(values[k]), file))
  }

  /** The documents of `file` as of the branch: none when `git show`
      fails (a new file), an error when its cleaned text fails to decode. */
  function OldDocsOf<V>(branch: string, file: string, show: string -> Option<string>,
                        decode: string -> Option<seq<V>>, marshal: V -> string,
                        clean: string -> string): Result<seq<Document<V>>, TrackingError>
  {
    match show(Revision(branch, file))
    case None => Ok([])
    case Some(output) =>
      match decode(clean(output))
      case None => Err(OldParseFailed(file))
      case Some(values) => Ok(Tag(values, file, marshal))
  }

  /** The documents of the current `file`: an error when it cannot be read
      or its cleaned text fails to decode. */
  function NewDocsOf<V>(file: string, read: string -> Option<string>,
                        decode: string -> Option<seq<V>>, marshal: V -> string,
                        clean: string -> string): Result<seq<Document<V>>, TrackingError>
  {
    match read(file)
    case None => Err(ReadFailed(file))
    case Some(content) =>
      match decode(clean(content))
      case None => Err(NewParseFailed(file))
      case Some(values) => Ok(Tag(values, file, marshal))
  }

  /** Both document lists of one file, or its error; the branch version
      is looked at first. */
  function FileDocs<V>(branch: string, file: string,
                       show: string -> Option<string>, read: string -> Option<string>,
                       decode: string -> Option<seq<V>>, marshal: V -> string,
                       clean: string -> string): Result<DocumentSets<V>, TrackingError>
  {
    match OldDocsOf(branch, file, show, decode, marshal, clean)
    case Err(e) => Err(e)
    case Ok(olds) =>
      match NewDocsOf(file, read, decode, marshal, clean)
      case Err(e) => Err(e)
      case Ok(news) => Ok(DocumentSets(olds, news))
  }

  /** Both document lists for `files`, in file order, or the first error.
      The cleaner is a parameter so that the collection rules are stated
      apart from it; the source always uses `CleanYAMLContent`. */
  function CollectFrom<V>(branch: string, files: seq<string>,
                          show: string -> Option<string>, read: string -> Option<string>,
                          decode: string -> Option<seq<V>>, marshal: V -> string,
                          clean: string -> string): Result<DocumentSets<V>, TrackingError>
    decreases |files|
  {
    if |files| == 0 then Ok(DocumentSets([], []))
    else
      Then(FileDocs(branch, files[0], show, read, decode, marshal, clean),
           CollectFrom(branch, files[1..], show, read, decode, marshal, clean))
  }

  function CollectDocuments<V>(branch: string, files: seq<string>,
                               show: string -> Option<string>, read: string -> Option<string>,
                               decode: string -> Option<seq<V>>, marshal: V -> string): Result<DocumentSets<V>, TrackingError>
  {
    CollectFrom(branch, files, show, read, decode, marshal, CleanYAMLContent)
  }

  /** The result for a first group of files followed by the result for the
      rest: the first error wins, otherwise the lists are concatenated. */
  function Then<V>(first: Result<DocumentSets<V>, TrackingError>,
                   second: Result<DocumentSets<V>, TrackingError>): Result<DocumentSets<V>, TrackingError>
  {
    match first
    case Err(e) => Err(e)
    case Ok(a) =>
      match second
      case Err(e) => Err(e)
      case Ok(b) => Ok(DocumentSets(a.oldDocs + b.oldDocs, a.newDocs + b.newDocs))
  }

  /** Combining results is associative, so the documents of any grouping
      of files come out in the same order. */
  lemma ThenAssoc<V>(x: Result<DocumentSets<V>, TrackingError>, y: Result<DocumentSets<V>, TrackingError>,
                     z: Result<DocumentSets<V>, TrackingError>)
    ensures Then(x, Then(y, z)) == Then(Then(x, y), z)
  {
    match (x, y, z) {
      case (Ok(a), Ok(b), Ok(c)) =>
        assert a.oldDocs + (b.oldDocs + c.oldDocs) == (a.oldDocs + b.oldDocs) + c.oldDocs;
        assert a.newDocs + (b.newDocs + c.newDocs) == (a.newDocs + b.newDocs) + c.newDocs;
      case _ =>
    }
  }

  /** The loop of the source with a given cleaner: it appends each file's
      documents, in order, and stops at the first error. */
  method ParseWith<V>(branch: string, files: seq<string>,
                      show: string -> Option<string>, read: string -> Option<string>,
                      decode: string -> Option<seq<V>>, marshal: V -> string,
                      clean: string -> string)
    returns (res: Result<DocumentSets<V>, TrackingError>)
    ensures res == CollectFrom(branch, files, show, read, decode, marshal, clean)
  {
    var oldDocs: seq<Document<V>> := [];
    var newDocs: seq<Document<V>> := [];
    var i := 0;
    assert files[0..] == files;
    match CollectFrom(branch, files, show, read, decode, marshal, clean) {
      case Err(e) =>
      case Ok(s) => assert [] + s.oldDocs == s.oldDocs && [] + s.newDocs == s.newDocs;
    }
    while i < |files|
      invariant i <= |files|
      invariant CollectFrom(branch, files, show, read, decode, marshal, clean)
        == Then(Ok(DocumentSets(oldDocs, newDocs)), CollectFrom(branch, files[i..], show, read, decode, marshal, clean))
      decreases |files| - i
    {
      var file := files[i];
      assert files[i..][0] == file && files[i..][1..] == files[i + 1..];
      var olds: seq<Document<V>> := [];
      match show(Revision(branch, file)) {
        case None =>
        case Some(output) =>
          match decode(clean(output)) {
            case None =>
              return Err(OldParseFailed(file));
            case Some(values) =>
              olds := Tag(values, file, marshal);
          }
      }
      var news: seq<Document<V>>;
      match read(file) {
        case None =>
          return Err(ReadFailed(file));
        case Some(content) =>
          match decode(clean(content)) {
            case None =>
              return Err(NewParseFailed(file));
            case Some(values) =>
              news := Tag(values, file, marshal);
          }
      }
      assert FileDocs(branch, file, show, read, decode, marshal, clean) == Ok(DocumentSets(olds, news));
      ThenAssoc(Ok(DocumentSets(oldDocs, newDocs)), Ok(DocumentSets(olds, news)),
                CollectFrom(branch, files[i + 1..], show, read, decode, marshal, clean));
      oldDocs := oldDocs + olds;
      newDocs := newDocs + news;
      i := i + 1;
    }
    assert files[i..] == [];
    assert oldDocs + [] == oldDocs && newDocs + [] == newDocs;
    res := Ok(DocumentSets(oldDocs, newDocs));
  }

  /** `ParseFilesWithSourceTracking`: the loop run with `CleanYAMLContent`. */
  method ParseFilesWithSourceTracking<V>(branch: string, files: seq<string>,
                                         show: string -> Option<string>, read: string -> Option<string>,
                                         decode: string -> Option<seq<V>>, marshal: V -> string)
    returns (res: Result<DocumentSets<V>, TrackingError>)
    ensures res == CollectDocuments(branch, files, show, read, decode, marshal)
  {
    res := ParseWith(branch, files, show, read, decode, marshal, CleanYAMLContent);
  }

  /** Collecting over two groups of files is collecting over the first,
      then over the second: documents are appended in file order and the
      first failing file decides the error. */
  lemma {:induction false} CollectAppend<V>(branch: string, a: seq<string>, b: seq<string>,
                                            show: string -> Option<string>, read: string -> Option<string>,
                                            decode: string -> Option<seq<V>>, marshal: V -> string,
                                            clean: string -> string)
    ensures CollectFrom(branch, a + b, show, read, decode, marshal, clean)
      == Then(CollectFrom(branch, a, show, read, decode, marshal, clean),
              CollectFrom(branch, b, show, read, decode, marshal, clean))
    decreases |a|
  {
    if |a| == 0 {
      assert a + b == b;
      match CollectFrom(branch, b, show, read, decode, marshal, clean) {
        case Err(e) =>
        case Ok(s) => assert [] + s.oldDocs == s.oldDocs && [] + s.newDocs == s.newDocs;
      }
    } else {
      assert (a + b)[0] == a[0];
      assert (a + b)[1..] == a[1..] + b;
      CollectAppend(branch, a[1..], b, show, read, decode, marshal, clean);
      ThenAssoc(FileDocs(branch, a[0], show, read, decode, marshal, clean),
                CollectFrom(branch, a[1..], show, read, decode, marshal, clean),
                CollectFrom(branch, b, show, read, decode, marshal, clean));
    }
  }

  /** A file is processed without error when its branch version is absent
      or decodes, and its current version can be read and decodes. */
  predicate FileParses<V>(branch: string, file: string,
                          show: string -> Option<string>, read: string -> Option<string>,
                          decode: string -> Option<seq<V>>, clean: string -> string)
  {
    && (match show(Revision(branch, file))
        case None => true
        case Some(output) => decode(clean(output)).Some?)
    && (match read(file)
        case None => false
        case Some(content) => decode(clean(content)).Some?)
  }

  /** Collection succeeds exactly when every file parses; a failed
      `git show` never causes an error. */
  lemma {:induction false} CollectOkIff<V>(branch: string, files: seq<string>,
                                           show: string -> Option<string>, read: string -> Option<string>,
                                           decode: string -> Option<seq<V>>, marshal: V -> string,
                                           clean: string -> string)
    ensures CollectFrom(branch, files, show, read, decode, marshal, clean).Ok? <==>
      forall j :: 0 <= j < |files| ==> FileParses(branch, files[j], show, read, decode, clean)
    decreases |files|
  {
    if |files| > 0 {
      CollectOkIff(branch, files[1..], show, read, decode, marshal, clean);
      assert forall j :: 1 <= j < |files| ==> files[j] == files[1..][j - 1];
    }
  }

  /** Every collected document is tagged with a file from the input and
      carries its own re-serialisation; a document on the branch side
      comes only from a file that `git show` found, and one on the current
      side only from a file that could be read. */
  lemma {:induction false} CollectTags<V>(branch: string, files: seq<string>,
                                          show: string -> Option<string>, read: string -> Option<string>,
                                          decode: string -> Option<seq<V>>, marshal: V -> string,
                                          clean: string -> string)
    requires CollectFrom(branch, files, show, read, decode, marshal, clean).Ok?
    ensures var s := CollectFrom(branch, files, show, read, decode, marshal, clean).value;
      && (forall d :: d in s.oldDocs ==>
            d.sourceFile in files && d.raw == marshal(d.content) && show(Revision(branch, d.sourceFile)).Some?)
      && (forall d :: d in s.newDocs ==>
            d.sourceFile in files && d.raw == marshal(d.content) && read(d.sourceFile).Some?)
    decreases |files|
  {
    if |files| > 0 {
      CollectTags(branch, files[1..], show, read, decode, marshal, clean);
    }
  }
}
