/**
 * The file routes: the upload filter on the file's extension, the
 * server's `chunkText`, the APP/APR/OTHER tag an upload gets from its
 * name, the `/upload` loop that sorts every file into `results` or
 * `errors`, `/chunk`, and the `chunkIndex` the vectors of
 * `/process-and-embed` carry.
 *
 * Text extraction (pdf-parse, mammoth) and the embedding service are
 * oracles; the database writes of `/upload` are left out, since every
 * failure there is caught and logged and changes nothing in the reply.
 */
module FileRoutes {
  import opened Common
  import opened Strings
  import opened JsValue
  import Chunkers

  const AllowedExtensions: seq<string> := [".pdf", ".doc", ".docx"]
  const DefaultChunkSize: nat := 5000
  const EmbedBatchSize: nat := 20

  // ---------------------------------------------------------------------
  // path.extname and the upload filter
  // ---------------------------------------------------------------------

  /** The last position of `c` in `s`. */
  function LastIndexOfChar(s: string, c: char): (r: Option<nat>)
    ensures r.Some? ==> r.value < |s| && s[r.value] == c && forall j :: r.value < j < |s| ==> s[j] != c
    ensures r.None? ==> forall j :: 0 <= j < |s| ==> s[j] != c
  {
    if |s| == 0 then None
    else if Last(s) == c then Some(|s| - 1)
    else LastIndexOfChar(AllButLast(s), c)
  }

  function StripTrailingSlashes(p: string): (r: string)
    ensures |r| <= |p| && r == p[..|r|]
    ensures |r| == 0 || Last(r) != '/'
    ensures forall j :: |r| <= j < |p| ==> p[j] == '/'
  {
    if |p| == 0 || Last(p) != '/' then p else StripTrailingSlashes(AllButLast(p))
  }

  /** The last segment of a POSIX path, trailing slashes ignored. */
  function BaseName(p: string): (b: string)
    ensures '/' !in b
  {
    var q := StripTrailingSlashes(p);
    match LastIndexOfChar(q, '/')
    case None => q
    case Some(i) => q[i + 1..]
  }

  /**
   * `path.extname(p)` (POSIX): from the last '.' of the last segment to its
   * end; nothing when the segment has no '.', when its only '.' is its
   * first character (".pdf" is a name, not an extension), or when it is "..".
   */
  function ExtName(p: string): (ext: string)
  {
    var b := BaseName(p);
    match LastIndexOfChar(b, '.')
    case None => ""
    case Some(d) => if d == 0 || b == ".." then "" else b[d..]
  }

  /** An extension is empty, or a '.' followed by no other '.' and no '/', ending the segment. */
  lemma ExtNameShape(p: string)
    ensures var ext := ExtName(p);
      ext == "" || (ext[0] == '.' && '.' !in ext[1..] && '/' !in ext
                    && |ext| <= |BaseName(p)| && BaseName(p)[|BaseName(p)| - |ext|..] == ext)
  {
    var b := BaseName(p);
    match LastIndexOfChar(b, '.')
    case None =>
    case Some(d) =>
      if d != 0 && b != ".." {
        var ext := b[d..];
        assert forall j :: 1 <= j < |ext| ==> ext[j] == b[d + j];
        assert ext[1..] == b[d + 1..];
      }
  }

  /** `fileFilter`: the lowercased extension must be one of the three. */
  predicate AcceptedUpload(originalname: string) {
    Lower(ExtName(originalname)) in AllowedExtensions
  }

  lemma {:induction false} LastIndexAt(u: string, c: char, v: string)
    requires c !in v
    ensures LastIndexOfChar(u + [c] + v, c) == Some(|u|)
    decreases |v|
  {
    if |v| > 0 {
      assert AllButLast(u + [c] + v) == u + [c] + AllButLast(v);
      LastIndexAt(u, c, AllButLast(v));
    }
  }

  lemma NoSlashBaseName(s: string)
    requires '/' !in s
    ensures BaseName(s) == s
  {
  }

  /** The extension of a segment `u.v`, with `u` not empty and `v` free of dots. */
  lemma ExtNameOf(u: string, v: string)
    requires |u| > 0 && '/' !in u && '/' !in v && '.' !in v && u + ['.'] + v != ".."
    ensures ExtName(u + ['.'] + v) == ['.'] + v
  {
    var b := u + ['.'] + v;
    NoSlashBaseName(b);
    LastIndexAt(u, '.', v);
    assert b[|u|..] == ['.'] + v;
  }

  /** The filter ignores the case of the extension. */
  lemma UpperCaseAccepted()
    ensures AcceptedUpload("a.PDF")
  {
    assert "a.PDF" == "a" + ['.'] + "PDF";
    ExtNameOf("a", "PDF");
    var l := Lower(['.'] + "PDF");
    assert LowerChar('P') == 'p' && LowerChar('D') == 'd' && LowerChar('F') == 'f';
    assert |l| == 4 && l[0] == '.' && l[1] == 'p' && l[2] == 'd' && l[3] == 'f';
    assert l == ".pdf";
    assert l == AllowedExtensions[0];
  }

  /** Only the last extension counts. */
  lemma LastExtensionCounts()
    ensures !AcceptedUpload("a.pdf.zip")
  {
    assert "a.pdf.zip" == "a.pdf" + ['.'] + "zip";
    ExtNameOf("a.pdf", "zip");
    ZipNotAllowed(['.'] + "zip");
  }

  lemma ZipNotAllowed(ext: string)
    requires |ext| == 4 && ext[3] == 'p'
    ensures Lower(ext) !in AllowedExtensions
  {
    assert Lower(ext)[3] == 'p';
    assert ".pdf"[3] == 'f' && ".doc"[3] == 'c' && |".docx"| == 5;
  }

  /** A name that only starts with a dot has no extension. */
  lemma DotFileRejected()
    ensures !AcceptedUpload(".pdf")
  {
    assert ".pdf" == [] + ['.'] + "pdf";
    LastIndexAt([], '.', "pdf");
    NoSlashBaseName(".pdf");
  }

  // ---------------------------------------------------------------------
  // chunkText
  // ---------------------------------------------------------------------

  /** A `chunkSize` the model covers: anything but a positive fraction. */
  predicate CoveredChunkSize(chunkSize: JSValue) {
    chunkSize.JNum? && chunkSize.n > 0.0 ==> chunkSize.n.Floor as real == chunkSize.n
  }

  /**
   * `chunkText(text, chunkSize)`: the two type checks, `[]` for "", and
   * otherwise the slices of `chunkSize` characters. `NaN` is a number and
   * is not `<= 0`: the loop then runs once, pushing `text.slice(0, NaN)`,
   * which is "".
   */
  function ChunkTextSpec(text: JSValue, chunkSize: JSValue): (r: Result<seq<string>, string>)
    requires CoveredChunkSize(chunkSize)
  {
    if !text.JStr? then Err("Text must be a string")
    else if !(chunkSize.JNum? || chunkSize.JNaN?) || (chunkSize.JNum? && chunkSize.n <= 0.0) then
      Err("Chunk size must be a positive number")
    else if |text.s| == 0 then Ok([])
    else if chunkSize.JNaN? then Ok([""])
    else Ok(Chunkers.Slices(text.s, chunkSize.n.Floor as nat))
  }

  method ChunkText(text: JSValue, chunkSize: JSValue) returns (r: Result<seq<string>, string>)
    requires CoveredChunkSize(chunkSize)
    ensures r == ChunkTextSpec(text, chunkSize)
  {
    if !text.JStr? {
      return Err("Text must be a string");
    }
    if !(chunkSize.JNum? || chunkSize.JNaN?) || (chunkSize.JNum? && chunkSize.n <= 0.0) {
      return Err("Chunk size must be a positive number");
    }
    if |text.s| == 0 {
      return Ok([]);
    }
    if chunkSize.JNaN? {
      return Ok([""]);
    }
    var chunks := Chunkers.SliceBySize(text.s, chunkSize.n.Floor as nat);
    r := Ok(chunks);
  }

  /**
   * A string and a positive whole `chunkSize` n: slices of exactly n
   * characters but the last, which has 1 to n, ceil(|text| / n) of them,
   * that put back together give the text.
   */
  lemma ChunkTextSlices(s: string, n: nat)
    requires n > 0
    ensures ChunkTextSpec(JStr(s), JNum(n as real)).Ok?
    ensures var chunks := ChunkTextSpec(JStr(s), JNum(n as real)).value;
      Flatten(chunks) == s
      && |chunks| == CeilDiv(|s|, n)
      && (forall k :: 0 <= k < |chunks| - 1 ==> |chunks[k]| == n)
      && (|chunks| > 0 ==> 1 <= |chunks[|chunks| - 1]| <= n)
  {
    assert (n as real).Floor == n;
    Chunkers.SlicesFlatten(s, n);
    Chunkers.SlicesCount(s, n);
    Chunkers.SlicesSizes(s, n);
  }

  /** The one input that gives no chunk is the empty string. */
  lemma ChunkTextEmptyOnlyForEmpty(s: string, n: nat)
    requires n > 0
    ensures ChunkTextSpec(JStr(s), JNum(n as real)) == Ok([]) <==> s == ""
  {
    ChunkTextSlices(s, n);
  }

  // ---------------------------------------------------------------------
  // The APP / APR / OTHER tag
  // ---------------------------------------------------------------------

  datatype FileType = App | Apr | Other

  /** The lowercased original name: containing "app" gives APP, else "apr" gives APR. */
  function FileTypeOf(originalname: string): FileType {
    var name := Lower(originalname);
    if Contains(name, "app") then App
    else if Contains(name, "apr") then Apr
    else Other
  }

  /**
   * The tag for every name: APP exactly when the lowercased name contains
   * "app", APR exactly when it contains "apr" but not "app", and no tag
   * otherwise; the name's case never matters.
   */
  lemma FileTypeSpec(originalname: string)
    ensures FileTypeOf(originalname) == App <==> Contains(Lower(originalname), "app")
    ensures FileTypeOf(originalname) == Apr <==>
      Contains(Lower(originalname), "apr") && !Contains(Lower(originalname), "app")
    ensures FileTypeOf(originalname) == Other <==>
      !Contains(Lower(originalname), "app") && !Contains(Lower(originalname), "apr")
    ensures FileTypeOf(Lower(originalname)) == FileTypeOf(originalname)
  {
    var name := Lower(originalname);
    forall i | 0 <= i < |name|
      ensures Lower(name)[i] == name[i]
    {
      assert name[i] == LowerChar(originalname[i]);
    }
    assert Lower(name) == name;
  }

  /** "app" is looked for first: a name containing both, or "approach", is APP. */
  lemma FileTypeExamples()
    ensures FileTypeOf("approach.pdf") == App
    ensures FileTypeOf("APR-2023.pdf") == Apr
    ensures FileTypeOf("Budget.docx") == Other
  {
    assert Lower("approach.pdf")[0..3] == "app";
    assert OccursAt(Lower("approach.pdf"), "app", 0);
    assert Lower("APR-2023.pdf") == "apr-2023.pdf";
    assert OccursAt(Lower("APR-2023.pdf"), "apr", 0);
    var b := Lower("Budget.docx");
    assert b == "budget.docx";
    MissingCharNotContained(b, "app", 0);
    MissingCharNotContained(b, "apr", 0);
  }

  // ---------------------------------------------------------------------
  // POST /upload
  // ---------------------------------------------------------------------

  /** A file as multer hands it over; its bytes reach only the extractors. */
  datatype UploadedFile = UploadedFile(originalname: string, size: nat, mimetype: string, buffer: seq<bv8>)

  /** What an extractor returns: the text and the page count. */
  datatype Extracted = Extracted(text: string, pages: nat)

  /** An extractor: the file's bytes to the text or to the library's error message. */
  type Extractor = seq<bv8> -> Result<Extracted, string>

  /** One entry of `results`. */
  datatype FileResult = FileResult(filename: string, size: nat, mimetype: string, fileType: FileType,
                                   pages: nat, textLength: nat, chunks: seq<string>, chunkCount: nat)

  /** One entry of `errors`. */
  datatype FileError = FileError(filename: string, error: string)

  /**
   * `extractPdfText` / `extractDocxText` by the lowercased extension; the
   * library error is re-thrown with the file name (`undefined` when the
   * caller passes none).
   */
  function ExtractText(file: UploadedFile, filename: string, pdf: Extractor, docx: Extractor): Result<Extracted, string> {
    var ext := Lower(ExtName(file.originalname));
    if ext == ".pdf" then
      match pdf(file.buffer)
      case Ok(x) => Ok(x)
      case Err(m) => Err("PDF extraction failed for " + filename + ": " + m)
    else if ext == ".docx" || ext == ".doc" then
      match docx(file.buffer)
      case Ok(x) => Ok(x)
      case Err(m) => Err("DOCX extraction failed for " + filename + ": " + m)
    else Err("Unsupported file type: " + ext)
  }

  /** The entry of `results` for a file whose text was extracted. */
  function Summarise(file: UploadedFile, x: Extracted): (fr: FileResult)
    ensures fr.filename == file.originalname && fr.fileType == FileTypeOf(file.originalname)
    ensures fr.textLength == |x.text| && fr.chunkCount == |fr.chunks| && Flatten(fr.chunks) == x.text
    ensures forall k :: 0 <= k < |fr.chunks| ==> 0 < |fr.chunks[k]| <= DefaultChunkSize
  {
    var chunks := Chunkers.Slices(x.text, DefaultChunkSize);
    Chunkers.SlicesFlatten(x.text, DefaultChunkSize);
    Chunkers.SlicesSizes(x.text, DefaultChunkSize);
    FileResult(file.originalname, file.size, file.mimetype, FileTypeOf(file.originalname),
               x.pages, |x.text|, chunks, |chunks|)
  }

  /** The body of the `try` for one file of `/upload`. */
  function UploadOne(file: UploadedFile, pdf: Extractor, docx: Extractor): (r: Result<FileResult, FileError>)
  {
    match ExtractText(file, file.originalname, pdf, docx)
    case Err(m) => Err(FileError(file.originalname, m))
    case Ok(x) => Ok(Summarise(file, x))
  }

  /** The files that were processed, in upload order. */
  function Successes(files: seq<UploadedFile>, pdf: Extractor, docx: Extractor): seq<FileResult> {
    if |files| == 0 then []
    else
      var here := match UploadOne(Last(files), pdf, docx) case Ok(x) => [x] case Err(_) => [];
      Successes(AllButLast(files), pdf, docx) + here
  }

  /** The files that failed, in upload order. */
  function Failures(files: seq<UploadedFile>, pdf: Extractor, docx: Extractor): seq<FileError> {
    if |files| == 0 then []
    else
      var here := match UploadOne(Last(files), pdf, docx) case Err(e) => [e] case Ok(_) => [];
      Failures(AllButLast(files), pdf, docx) + here
  }

  /** The `for (const file of req.files)` loop with its per-file `try`/`catch`. */
  method ProcessUploads(files: seq<UploadedFile>, pdf: Extractor, docx: Extractor)
    returns (results: seq<FileResult>, errors: seq<FileError>)
    ensures results == Successes(files, pdf, docx)
    ensures errors == Failures(files, pdf, docx)
  {
    results, errors := [], [];
    var k := 0;
    while k < |files|
      invariant k <= |files|
      invariant results == Successes(files[..k], pdf, docx)
      invariant errors == Failures(files[..k], pdf, docx)
    {
      assert AllButLast(files[..k + 1]) == files[..k] && Last(files[..k + 1]) == files[k];
      var outcome := UploadOne(files[k], pdf, docx);
      match outcome {
        case Ok(x) => results := results + [x];
        case Err(e) => errors := errors + [e];
      }
      k := k + 1;
    }
    assert files[..k] == files;
  }

  /** Every file lands in exactly one list. */
  lemma {:induction false} UploadPartition(files: seq<UploadedFile>, pdf: Extractor, docx: Extractor)
    ensures |Successes(files, pdf, docx)| + |Failures(files, pdf, docx)| == |files|
  {
    if |files| > 0 {
      UploadPartition(AllButLast(files), pdf, docx);
    }
  }

  /**
   * A file's fate does not depend on the others: the lists for two runs of
   * files are the lists for each, one after the other.
   */
  lemma {:induction false} SuccessesAppend(a: seq<UploadedFile>, b: seq<UploadedFile>, pdf: Extractor, docx: Extractor)
    ensures Successes(a + b, pdf, docx) == Successes(a, pdf, docx) + Successes(b, pdf, docx)
    decreases |b|
  {
    if |b| == 0 {
      assert a + b == a;
    } else {
      assert AllButLast(a + b) == a + AllButLast(b) && Last(a + b) == Last(b);
      SuccessesAppend(a, AllButLast(b), pdf, docx);
    }
  }

  lemma {:induction false} FailuresAppend(a: seq<UploadedFile>, b: seq<UploadedFile>, pdf: Extractor, docx: Extractor)
    ensures Failures(a + b, pdf, docx) == Failures(a, pdf, docx) + Failures(b, pdf, docx)
    decreases |b|
  {
    if |b| == 0 {
      assert a + b == a;
    } else {
      assert AllButLast(a + b) == a + AllButLast(b) && Last(a + b) == Last(b);
      FailuresAppend(a, AllButLast(b), pdf, docx);
    }
  }

  /**
   * Every entry of `results` is the summary of one of the files, tagged by
   * its name, with chunks of 1 to 5000 characters.
   */
  lemma {:induction false} SuccessesAreSummaries(files: seq<UploadedFile>, pdf: Extractor, docx: Extractor)
    ensures forall fr :: fr in Successes(files, pdf, docx) ==>
      (exists file :: file in files && fr.filename == file.originalname && fr.fileType == FileTypeOf(fr.filename))
      && fr.chunkCount == |fr.chunks|
      && forall k :: 0 <= k < |fr.chunks| ==> 0 < |fr.chunks[k]| <= DefaultChunkSize
  {
    if |files| > 0 {
      SuccessesAreSummaries(AllButLast(files), pdf, docx);
      forall file | file in AllButLast(files) ensures file in files {
        LastSplit(files);
      }
      assert Last(files) in files;
    }
  }

  /** The entry of `errors` for a file names it and carries the extraction's message. */
  lemma UploadOneFails(file: UploadedFile, pdf: Extractor, docx: Extractor)
    ensures UploadOne(file, pdf, docx).Err? <==> ExtractText(file, file.originalname, pdf, docx).Err?
    ensures UploadOne(file, pdf, docx).Err? ==>
      UploadOne(file, pdf, docx).error == FileError(file.originalname, ExtractText(file, file.originalname, pdf, docx).error)
  {
  }

  /** Files that passed the upload filter never fail with "Unsupported file type". */
  lemma FilteredFilesAreExtracted(file: UploadedFile, pdf: Extractor, docx: Extractor)
    requires AcceptedUpload(file.originalname)
    ensures ExtractText(file, file.originalname, pdf, docx).Err? ==>
      pdf(file.buffer).Err? || docx(file.buffer).Err?
  {
  }

  /** What `/upload` answers. */
  datatype UploadReply =
    | NoFilesUploaded                                   // 400, 'Validation Error'
    | FilesProcessed(files: seq<FileResult>, errors: Option<seq<FileError>>)  // `errors` only when there are some

  method Upload(files: seq<UploadedFile>, pdf: Extractor, docx: Extractor) returns (reply: UploadReply)
    ensures |files| == 0 <==> reply.NoFilesUploaded?
    ensures reply.FilesProcessed? ==> reply.files == Successes(files, pdf, docx)
    ensures reply.FilesProcessed? ==>
      (reply.errors.Some? <==> |Failures(files, pdf, docx)| > 0)
      && (reply.errors.Some? ==> reply.errors.value == Failures(files, pdf, docx))
  {
    if |files| == 0 {
      return NoFilesUploaded;
    }
    var results, errors := ProcessUploads(files, pdf, docx);
    reply := FilesProcessed(results, if |errors| > 0 then Some(errors) else None);
  }

  // ---------------------------------------------------------------------
  // POST /chunk
  // ---------------------------------------------------------------------

  datatype ChunkReply =
    | Chunked(originalLength: nat, chunkSize: JSValue, chunkCount: nat, chunks: seq<string>)
    | ChunkFailed(status: nat, error: string)

  /** `/chunk`: falsy text is a 400; a `chunkText` error a 500; `chunkSize` defaults to 5000. */
  function ChunkRoute(body: map<string, JSValue>): (r: ChunkReply)
    requires CoveredChunkSize(FieldOr(body, "chunkSize", JNum(DefaultChunkSize as real)))
  {
    var text := FieldOr(body, "text", JUndefined);
    var chunkSize := FieldOr(body, "chunkSize", JNum(DefaultChunkSize as real));
    if !Truthy(text) then ChunkFailed(400, "Text is required")
    else match ChunkTextSpec(text, chunkSize)
      case Err(m) => ChunkFailed(500, m)
      case Ok(chunks) => Chunked(|text.s|, chunkSize, |chunks|, chunks)
  }

  /**
   * The status of `/chunk`: 400 exactly for falsy text, 500 for a truthy
   * non-string or a bad size, and for a non-empty string and the default
   * size the 5000-character slices.
   */
  lemma ChunkRouteOutcomes(body: map<string, JSValue>)
    requires CoveredChunkSize(FieldOr(body, "chunkSize", JNum(DefaultChunkSize as real)))
    ensures var text := FieldOr(body, "text", JUndefined);
      ChunkRoute(body) == ChunkFailed(400, "Text is required") <==> !Truthy(text)
    ensures var text := FieldOr(body, "text", JUndefined);
      Truthy(text) && !text.JStr? ==> ChunkRoute(body) == ChunkFailed(500, "Text must be a string")
    ensures var text := FieldOr(body, "text", JUndefined);
      text.JStr? && text.s != "" && "chunkSize" !in body ==>
        ChunkRoute(body) == Chunked(|text.s|, JNum(5000.0), CeilDiv(|text.s|, 5000), Chunkers.Slices(text.s, 5000))
  {
    var text := FieldOr(body, "text", JUndefined);
    if text.JStr? && text.s != "" && "chunkSize" !in body {
      ChunkTextSlices(text.s, 5000);
    }
  }

  /** `NaN` passes both checks and yields one empty chunk. */
  lemma NaNChunkSize(s: string)
    requires s != ""
    ensures ChunkTextSpec(JStr(s), JNaN) == Ok([""])
  {
  }

  // ---------------------------------------------------------------------
  // POST /process-and-embed: the vectors of one file
  // ---------------------------------------------------------------------

  type Embedding = seq<real>

  /** The embedding service with the fixed model 'text-embedding-ada-002': one call's `data`. */
  type Embedder = seq<string> -> Result<seq<Embedding>, string>

  /** One entry of `vectorStore`; `text` is `batch[idx]`, undefined past the batch. */
  datatype Vector = Vector(embedding: Embedding, text: Option<string>, source: string, mimetype: string,
                           chunkIndex: nat, pages: nat)

  /** `response.data.forEach((item, idx) => …)` for the batch starting at chunk `i`. */
  function Tag(data: seq<Embedding>, batch: seq<string>, i: nat, source: string, mimetype: string, pages: nat)
    : (vs: seq<Vector>)
    ensures |vs| == |data|
    ensures forall k :: 0 <= k < |vs| ==>
      (vs[k].chunkIndex == i + k && vs[k].embedding == data[k]
       && vs[k].text == (if k < |batch| then Some(batch[k]) else None))
  {
    seq(|data|, k requires 0 <= k < |data| =>
      Vector(data[k], if k < |batch| then Some(batch[k]) else None, source, mimetype, i + k, pages))
  }

  /** The vectors of the batches from chunk `i` on; the first throwing call throws for the request. */
  function FileVectorsFrom(chunks: seq<string>, i: nat, source: string, mimetype: string, pages: nat,
                           embed: Embedder): Result<seq<Vector>, string>
    decreases |chunks| - i
  {
    if i >= |chunks| then Ok([])
    else
      var batch := Slice(chunks, i, i + EmbedBatchSize);
      match embed(batch)
      case Err(m) => Err(m)
      case Ok(data) =>
        match FileVectorsFrom(chunks, i + EmbedBatchSize, source, mimetype, pages, embed)
        case Err(m) => Err(m)
        case Ok(rest) => Ok(Tag(data, batch, i, source, mimetype, pages) + rest)
  }

  function Prepend(vs: seq<Vector>, r: Result<seq<Vector>, string>): Result<seq<Vector>, string> {
    match r
    case Err(m) => Err(m)
    case Ok(rest) => Ok(vs + rest)
  }

  /** `for (let i = 0; i < chunks.length; i += 20)` over one file's chunks. */
  method EmbedFileChunks(chunks: seq<string>, source: string, mimetype: string, pages: nat, embed: Embedder)
    returns (r: Result<seq<Vector>, string>)
    ensures r == FileVectorsFrom(chunks, 0, source, mimetype, pages, embed)
  {
    var vectorStore: seq<Vector> := [];
    var i := 0;
    ghost var all := FileVectorsFrom(chunks, 0, source, mimetype, pages, embed);
    assert all.Ok? ==> [] + all.value == all.value;
    while i < |chunks|
      invariant FileVectorsFrom(chunks, 0, source, mimetype, pages, embed)
        == Prepend(vectorStore, FileVectorsFrom(chunks, i, source, mimetype, pages, embed))
      decreases |chunks| - i
    {
      var batch := Slice(chunks, i, i + EmbedBatchSize);
      var response := embed(batch);
      if response.Err? {
        assert FileVectorsFrom(chunks, i, source, mimetype, pages, embed) == Err(response.error);
        return Err(response.error);
      }
      var tagged := Tag(response.value, batch, i, source, mimetype, pages);
      assert vectorStore + tagged + [] == vectorStore + tagged;
      PrependAssoc(vectorStore, tagged, FileVectorsFrom(chunks, i + EmbedBatchSize, source, mimetype, pages, embed));
      vectorStore := vectorStore + tagged;
      i := i + EmbedBatchSize;
    }
    assert vectorStore + [] == vectorStore;
    r := Ok(vectorStore);
  }

  lemma PrependAssoc(a: seq<Vector>, b: seq<Vector>, r: Result<seq<Vector>, string>)
    ensures Prepend(a, Prepend(b, r)) == Prepend(a + b, r)
  {
    if r.Ok? {
      assert a + (b + r.value) == (a + b) + r.value;
    }
  }

  /**
   * Each vector that carries a text carries the chunk at its own
   * `chunkIndex`, and every `chunkIndex` counts from the start of the file.
   */
  lemma {:induction false} ChunkIndexIsPosition(chunks: seq<string>, i: nat, source: string, mimetype: string,
                                                pages: nat, embed: Embedder)
    requires FileVectorsFrom(chunks, i, source, mimetype, pages, embed).Ok?
    ensures var vs := FileVectorsFrom(chunks, i, source, mimetype, pages, embed).value;
      forall k :: 0 <= k < |vs| ==>
        (i <= vs[k].chunkIndex
         && (vs[k].text.Some? ==> vs[k].chunkIndex < |chunks| && chunks[vs[k].chunkIndex] == vs[k].text.value))
    decreases |chunks| - i
  {
    if i < |chunks| {
      var batch := Slice(chunks, i, i + EmbedBatchSize);
      var data := embed(batch).value;
      ChunkIndexIsPosition(chunks, i + EmbedBatchSize, source, mimetype, pages, embed);
      var t := Tag(data, batch, i, source, mimetype, pages);
      var rest := FileVectorsFrom(chunks, i + EmbedBatchSize, source, mimetype, pages, embed).value;
      var vs := t + rest;
      forall k | 0 <= k < |vs|
        ensures i <= vs[k].chunkIndex
        ensures vs[k].text.Some? ==> vs[k].chunkIndex < |chunks| && chunks[vs[k].chunkIndex] == vs[k].text.value
      {
        if k < |t| {
          if k < |batch| {
            assert batch[k] == chunks[i + k];
          }
        } else {
          assert vs[k] == rest[k - |t|];
        }
      }
    }
  }

  /** A service answering every call with one embedding per input. */
  ghost predicate OnePerInput(embed: Embedder) {
    forall b :: embed(b).Ok? && |embed(b).value| == |b|
  }

  /** Then the file gives one vector per chunk, vector k for chunk k. */
  lemma {:induction false} OneVectorPerChunk(chunks: seq<string>, i: nat, source: string, mimetype: string,
                                             pages: nat, embed: Embedder)
    requires OnePerInput(embed) && i <= |chunks|
    ensures FileVectorsFrom(chunks, i, source, mimetype, pages, embed).Ok?
    ensures var vs := FileVectorsFrom(chunks, i, source, mimetype, pages, embed).value;
      |vs| == |chunks| - i
      && forall k :: 0 <= k < |vs| ==> vs[k].chunkIndex == i + k && vs[k].text == Some(chunks[i + k])
    decreases |chunks| - i
  {
    if i < |chunks| {
      var batch := Slice(chunks, i, i + EmbedBatchSize);
      var next := if i + EmbedBatchSize <= |chunks| then i + EmbedBatchSize else |chunks|;
      assert batch == chunks[i..next];
      OneVectorPerChunk(chunks, next, source, mimetype, pages, embed);
      if next == |chunks| && i + EmbedBatchSize > |chunks| {
        assert FileVectorsFrom(chunks, i + EmbedBatchSize, source, mimetype, pages, embed) == Ok([]);
      }
      var t := Tag(embed(batch).value, batch, i, source, mimetype, pages);
      var rest := FileVectorsFrom(chunks, next, source, mimetype, pages, embed).value;
      var vs := t + rest;
      forall k | 0 <= k < |vs|
        ensures vs[k].chunkIndex == i + k && vs[k].text == Some(chunks[i + k])
      {
        if k >= |t| {
          assert vs[k] == rest[k - |t|];
        }
      }
    }
  }

  // ---------------------------------------------------------------------
  // POST /process-and-embed: all files
  // ---------------------------------------------------------------------

  /** The extensions `/process-and-embed` extracts; any other file is skipped. */
  predicate Embeddable(file: UploadedFile) {
    var ext := Lower(ExtName(file.originalname));
    ext == ".pdf" || ext == ".docx" || ext == ".doc"
  }

  /**
   * The vectors of one file: none for a file that is skipped; a failing
   * extraction or call fails. The extractors are called without a file name.
   */
  function FileVectors(file: UploadedFile, pdf: Extractor, docx: Extractor, embed: Embedder)
    : Result<seq<Vector>, string>
  {
    if !Embeddable(file) then Ok([])
    else match ExtractText(file, "undefined", pdf, docx)
      case Err(m) => Err(m)
      case Ok(x) =>
        FileVectorsFrom(Chunkers.Slices(x.text, DefaultChunkSize), 0, file.originalname, file.mimetype, x.pages, embed)
  }

  /** The vectors of every file in order; the first failure throws for the whole request. */
  function EmbedFiles(files: seq<UploadedFile>, pdf: Extractor, docx: Extractor, embed: Embedder)
    : Result<seq<Vector>, string>
  {
    if |files| == 0 then Ok([])
    else match EmbedFiles(AllButLast(files), pdf, docx, embed)
      case Err(m) => Err(m)
      case Ok(before) =>
        match FileVectors(Last(files), pdf, docx, embed)
        case Err(m) => Err(m)
        case Ok(vs) => Ok(before + vs)
  }

  /** One pass of the loop over the files. */
  method EmbedFile(file: UploadedFile, pdf: Extractor, docx: Extractor, embed: Embedder)
    returns (r: Result<seq<Vector>, string>)
    ensures r == FileVectors(file, pdf, docx, embed)
  {
    var ext := Lower(ExtName(file.originalname));
    if ext == ".pdf" || ext == ".docx" || ext == ".doc" {
      var extracted := ExtractText(file, "undefined", pdf, docx);
      if extracted.Err? {
        return Err(extracted.error);
      }
      var chunks := Chunkers.SliceBySize(extracted.value.text, DefaultChunkSize);
      r := EmbedFileChunks(chunks, file.originalname, file.mimetype, extracted.value.pages, embed);
    } else {
      r := Ok([]);
    }
  }

  datatype EmbedReply =
    | NoFiles                                                           // 400
    | Embedded(filesCount: nat, vectorCount: nat, vectorStore: seq<Vector>)
    | EmbedFailed(error: string)                                        // 500

  method ProcessAndEmbed(files: seq<UploadedFile>, pdf: Extractor, docx: Extractor, embed: Embedder)
    returns (reply: EmbedReply)
    ensures |files| == 0 <==> reply.NoFiles?
    ensures |files| > 0 ==> match EmbedFiles(files, pdf, docx, embed)
      case Ok(vs) => reply == Embedded(|files|, |vs|, vs)
      case Err(m) => reply == EmbedFailed(if m != "" then m else "Failed to process and embed files")
  {
    if |files| == 0 {
      return NoFiles;
    }
    var vectorStore: seq<Vector> := [];
    var k := 0;
    while k < |files|
      invariant k <= |files|
      invariant EmbedFiles(files[..k], pdf, docx, embed) == Ok(vectorStore)
    {
      assert AllButLast(files[..k + 1]) == files[..k] && Last(files[..k + 1]) == files[k];
      var vs := EmbedFile(files[k], pdf, docx, embed);
      if vs.Err? {
        FailureStays(files, k + 1, pdf, docx, embed);
        return EmbedFailed(if vs.error != "" then vs.error else "Failed to process and embed files");
      }
      vectorStore := vectorStore + vs.value;
      k := k + 1;
    }
    assert files[..k] == files;
    reply := Embedded(|files|, |vectorStore|, vectorStore);
  }

  /** A request that has thrown on the first `k` files has thrown for all of them. */
  lemma {:induction false} FailureStays(files: seq<UploadedFile>, k: nat, pdf: Extractor, docx: Extractor,
                                        embed: Embedder)
    requires k <= |files| && EmbedFiles(files[..k], pdf, docx, embed).Err?
    ensures EmbedFiles(files, pdf, docx, embed) == EmbedFiles(files[..k], pdf, docx, embed)
    decreases |files| - k
  {
    if k < |files| {
      assert AllButLast(files[..k + 1]) == files[..k];
      FailureStays(files, k + 1, pdf, docx, embed);
    } else {
      assert files[..k] == files;
    }
  }
}
