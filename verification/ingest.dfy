/**
 * File ingestion (`ingest_file` and the `process_*` readers): an upload is
 * checked for size and extension, read into sections of text, each section
 * split into numbered chunks, and the chunks appended to the document store.
 *
 * The file parsers (pdfplumber, pandas, python-docx, UTF-8 decoding) are not
 * modelled: an upload carries the `Payload` its parser produced, or the
 * error it raised. The clock is the `now` parameter.
 */
module Ingest {
  import opened Wrappers
  import opened OrderedDict
  import opened Values
  import opened Strings
  import opened Chunker
  import opened Rag

  /** `MAX_UPLOAD_SIZE_MB` and `ALLOWED_FILE_TYPES` as configured. */
  const MaxUploadMegabytes: nat := 10
  const AllowedFileTypes: seq<string> := [".pdf", ".docx", ".xlsx", ".csv", ".txt"]

  /** One mebibyte, the unit of the size check. */
  const Megabyte: nat := 1024 * 1024

  // ---------------------------------------------------------------------------
  // Splitting and numbering.

  /**
   * `split_text(text, RAG_CHUNK_SIZE, RAG_CHUNK_OVERLAP)`, on the corrected
   * break rule (see `Chunker.Windows`), which always completes.
   */
  function Split(text: string): seq<string> {
    ChunksOf(text, Windows(text, DefaultChunkSize, DefaultOverlap).spans)
  }

  /** The cut rule the ingestion walk uses. */
  function IngestCuts(text: string): nat -> int {
    Cuts(text, DefaultChunkSize, DefaultOverlap)
  }

  /** Every chunk is a non-empty piece of at most `RAG_CHUNK_SIZE` characters, and only empty text has none. */
  lemma SplitSpec(text: string)
    ensures |Split(text)| == 0 <==> |text| == 0
    ensures forall i :: 0 <= i < |Split(text)| ==> 0 < |Split(text)[i]| <= DefaultChunkSize
  {
    var spans := Windows(text, DefaultChunkSize, DefaultOverlap).spans;
    CorrectedCompletes(text, DefaultChunkSize, DefaultOverlap, 0);
    CutsSpec(text, DefaultChunkSize, DefaultOverlap);
    SlideBounded(|text|, IngestCuts(text), DefaultOverlap, DefaultChunkSize, 0);
    SlideEnds(|text|, IngestCuts(text), DefaultOverlap, 0);
    forall i | 0 <= i < |spans|
      ensures 0 < |Chunk(text, spans[i])| <= DefaultChunkSize
    {
      assert spans[i].lo < |text| && spans[i].lo < spans[i].cut <= spans[i].lo + DefaultChunkSize;
    }
  }

  /** Every character of the text lies in some chunk, and the last chunk is a suffix of the text. */
  lemma SplitCovers(text: string)
    requires 0 < |text|
    ensures Windows(text, DefaultChunkSize, DefaultOverlap).Complete?
    ensures EndsWith(text, Split(text)[|Split(text)| - 1])
    ensures forall x :: 0 <= x < |text| ==>
      exists i :: 0 <= i < |Split(text)| && Contains(Split(text)[i], [text[x]])
  {
    SplitEnds(text);
    forall x | 0 <= x < |text|
      ensures exists i :: 0 <= i < |Split(text)| && Contains(Split(text)[i], [text[x]])
    {
      SplitHolds(text, x);
    }
  }

  lemma SplitEnds(text: string)
    requires 0 < |text|
    ensures Windows(text, DefaultChunkSize, DefaultOverlap).Complete?
    ensures EndsWith(text, Split(text)[|Split(text)| - 1])
  {
    var spans := Windows(text, DefaultChunkSize, DefaultOverlap).spans;
    CorrectedCompletes(text, DefaultChunkSize, DefaultOverlap, 0);
    SlideEnds(|text|, IngestCuts(text), DefaultOverlap, 0);
    SlideReachesEnd(|text|, IngestCuts(text), DefaultOverlap, 0);
    SlideFirst(|text|, IngestCuts(text), DefaultOverlap, 0);
    CutsSpec(text, DefaultChunkSize, DefaultOverlap);
    SlideBounded(|text|, IngestCuts(text), DefaultOverlap, DefaultChunkSize, 0);
    var last := spans[|spans| - 1];
    assert last.lo < |text|;
    assert Split(text)[|spans| - 1] == text[last.lo..];
  }

  lemma SplitHolds(text: string, x: nat)
    requires x < |text|
    ensures exists i :: 0 <= i < |Split(text)| && Contains(Split(text)[i], [text[x]])
  {
    var spans := Windows(text, DefaultChunkSize, DefaultOverlap).spans;
    CorrectedCompletes(text, DefaultChunkSize, DefaultOverlap, 0);
    SlideCovers(|text|, IngestCuts(text), DefaultOverlap, 0, x);
    var i :| 0 <= i < |spans| && spans[i].lo <= x < Hi(|text|, spans[i]);
    var lo, hi := spans[i].lo, Hi(|text|, spans[i]);
    assert Split(text)[i] == text[lo..hi];
    SliceContainsChar(text, lo, hi, x);
  }

  /** `{**base, "chunk": j + 1, "total_chunks": n}` for chunk `j` of `n`. */
  function ChunkMetadata(base: Dict, j: nat, n: nat): Dict {
    Set(Set(base, "chunk", VInt(j + 1)), "total_chunks", VInt(n))
  }

  /** One document per chunk, numbered from 1. */
  function NumberChunks(chunks: seq<string>, base: Dict): (docs: seq<Document>)
    ensures |docs| == |chunks|
    ensures forall j :: 0 <= j < |chunks| ==> docs[j].text == chunks[j]
  {
    seq(|chunks|, j requires 0 <= j < |chunks| => Document(chunks[j], ChunkMetadata(base, j, |chunks|)))
  }

  /**
   * Chunk `j` of `n` carries `chunk = j + 1` and `total_chunks = n`; every
   * other key reads as in the base metadata, and no base key is lost.
   */
  lemma ChunkMetadataSpec(base: Dict, j: nat, n: nat)
    ensures Lookup(ChunkMetadata(base, j, n), "chunk") == Some(VInt(j + 1))
    ensures Lookup(ChunkMetadata(base, j, n), "total_chunks") == Some(VInt(n))
    ensures forall k :: k != "chunk" && k != "total_chunks" ==> Lookup(ChunkMetadata(base, j, n), k) == Lookup(base, k)
    ensures forall k :: k in Keys(base) ==> k in Keys(ChunkMetadata(base, j, n))
  {
    SetSpec(base, "chunk", VInt(j + 1));
    SetSpec(Set(base, "chunk", VInt(j + 1)), "total_chunks", VInt(n));
  }

  /** Every document in `docs` has `key` set to `v`. */
  predicate Carries(docs: seq<Document>, key: string, v: Value) {
    forall i :: 0 <= i < |docs| ==> Lookup(docs[i].metadata, key) == Some(v)
  }

  /** The chunk numbers run `1..n` with `total_chunks = n`, and other base entries carry over. */
  lemma NumberChunksSpec(chunks: seq<string>, base: Dict, key: string, v: Value)
    requires key != "chunk" && key != "total_chunks" && Lookup(base, key) == Some(v)
    ensures Carries(NumberChunks(chunks, base), key, v)
    ensures Carries(NumberChunks(chunks, base), "total_chunks", VInt(|chunks|))
    ensures forall j :: 0 <= j < |chunks| ==> Lookup(NumberChunks(chunks, base)[j].metadata, "chunk") == Some(VInt(j + 1))
  {
    forall j | 0 <= j < |chunks|
      ensures Lookup(NumberChunks(chunks, base)[j].metadata, key) == Some(v)
      ensures Lookup(NumberChunks(chunks, base)[j].metadata, "total_chunks") == Some(VInt(|chunks|))
      ensures Lookup(NumberChunks(chunks, base)[j].metadata, "chunk") == Some(VInt(j + 1))
    {
      ChunkMetadataSpec(base, j, |chunks|);
    }
  }

  /**
   * One section of a PDF, Excel, Word or CSV file: kept whole when it fits
   * in one chunk, otherwise split and numbered.
   */
  function Section(text: string, meta: Dict): (docs: seq<Document>) {
    if |text| > DefaultChunkSize then NumberChunks(Split(text), meta) else [Document(text, meta)]
  }

  /**
   * A section that fits is one document holding the text and the section's
   * metadata unchanged; a longer one becomes at least one chunk.
   */
  lemma SectionSpec(text: string, meta: Dict)
    ensures |text| <= DefaultChunkSize ==> Section(text, meta) == [Document(text, meta)]
    ensures |text| > DefaultChunkSize ==> |Section(text, meta)| > 0
    ensures forall i :: 0 <= i < |Section(text, meta)| ==> |Section(text, meta)[i].text| <= DefaultChunkSize || Section(text, meta) == [Document(text, meta)]
  {
    SplitSpec(text);
  }

  /** The reason for the guard: a fitting text longer than 462 characters would split into two chunks. */
  lemma SectionAvoidsRedundantChunk(text: string, meta: Dict)
    requires DefaultChunkSize - DefaultOverlap < |text| <= DefaultChunkSize
    ensures Section(text, meta) == [Document(text, meta)]
    ensures Split(text) == [text, text[DefaultChunkSize - DefaultOverlap..]]
  {
    TwoChunks(text, DefaultChunkSize, DefaultOverlap, DefaultOverlap);
  }

  lemma SectionCarries(text: string, meta: Dict, key: string, v: Value)
    requires key != "chunk" && key != "total_chunks" && Lookup(meta, key) == Some(v)
    ensures Carries(Section(text, meta), key, v)
  {
    if |text| > DefaultChunkSize {
      NumberChunksSpec(Split(text), meta, key, v);
    }
  }

  // ---------------------------------------------------------------------------
  // The readers.

  /** The documents of several sections, in order. */
  function Concat(parts: seq<seq<Document>>): (docs: seq<Document>)
    ensures |parts| == 0 ==> docs == []
  {
    if |parts| == 0 then [] else parts[0] + Concat(parts[1..])
  }

  /** A document is among all the documents exactly when some section holds it. */
  lemma {:induction false} ConcatMembers(parts: seq<seq<Document>>, d: Document)
    ensures d in Concat(parts) <==> exists p :: 0 <= p < |parts| && d in parts[p]
  {
    if |parts| > 0 {
      ConcatMembers(parts[1..], d);
      assert forall p :: 0 < p < |parts| ==> parts[p] == parts[1..][p - 1];
      if d in Concat(parts[1..]) {
        var q :| 0 <= q < |parts[1..]| && d in parts[1..][q];
        assert d in parts[q + 1];
      }
    }
  }

  lemma {:induction false} ConcatCarries(parts: seq<seq<Document>>, key: string, v: Value)
    requires forall p :: 0 <= p < |parts| ==> Carries(parts[p], key, v)
    ensures Carries(Concat(parts), key, v)
  {
    if |parts| > 0 {
      ConcatCarries(parts[1..], key, v);
      var rest := Concat(parts[1..]);
      assert Carries(parts[0], key, v);
      forall i | 0 <= i < |Concat(parts)|
        ensures Lookup(Concat(parts)[i].metadata, key) == Some(v)
      {
        if i >= |parts[0]| {
          assert Concat(parts)[i] == rest[i - |parts[0]|];
        }
      }
    }
  }

  /** What the parser of each file type yields. */
  datatype Sheet = Sheet(name: string, table: string, empty: bool)

  datatype Payload =
    | Pages(pages: seq<string>)        // PDF: the text of each page, "" for none
    | Workbook(sheets: seq<Sheet>)     // Excel: each sheet rendered as a table
    | Paragraphs(paragraphs: seq<string>)  // Word
    | Table(table: Option<string>)     // CSV: None for an empty frame
    | Plain(text: string)              // plain text, decoded

  /** `process_pdf`: one section per page that has text, tagged with its page number. */
  function PdfDocs(pages: seq<string>, filename: string, meta: Dict): seq<Document> {
    Concat(seq(|pages|, i requires 0 <= i < |pages| =>
      if |pages[i]| == 0 then []
      else Section(pages[i], PageMetadata(meta, filename, i, |pages|))))
  }

  /** The text `process_excel` builds for a sheet. */
  function SheetText(sheet: Sheet): string {
    "Sheet: " + sheet.name + "\n\n" + sheet.table
  }

  /** `process_excel`: one section per non-empty sheet. */
  function ExcelDocs(sheets: seq<Sheet>, filename: string, meta: Dict): seq<Document> {
    Concat(seq(|sheets|, i requires 0 <= i < |sheets| =>
      if sheets[i].empty then []
      else Section(SheetText(sheets[i]), SheetMetadata(meta, filename, sheets[i].name))))
  }

  /** The non-empty paragraphs, in order. */
  function NonEmpty(paragraphs: seq<string>): seq<string> {
    if |paragraphs| == 0 then []
    else (if |paragraphs[0]| > 0 then [paragraphs[0]] else []) + NonEmpty(paragraphs[1..])
  }

  /** `process_word`: the non-empty paragraphs joined by newlines form one section, even when empty. */
  function WordDocs(paragraphs: seq<string>, filename: string, meta: Dict): seq<Document> {
    Section(Join(NonEmpty(paragraphs), "\n"), SourceMetadata(meta, filename))
  }

  /** `process_csv`: nothing for an empty frame, else one section. */
  function CsvDocs(table: Option<string>, filename: string, meta: Dict): seq<Document> {
    match table
    case None => []
    case Some(t) => Section(t, SourceMetadata(meta, filename))
  }

  /** The `.txt` branch: the text is always split, even when it fits in one chunk. */
  function TextDocs(text: string, meta: Dict): seq<Document> {
    NumberChunks(Split(text), meta)
  }

  /** `{**metadata, "source": filename}`. */
  function SourceMetadata(meta: Dict, filename: string): Dict {
    Set(meta, "source", VStr(filename))
  }

  /** `{**metadata, "source": filename, "page": i + 1, "total_pages": n}`. */
  function PageMetadata(meta: Dict, filename: string, i: nat, n: nat): Dict {
    Set(Set(SourceMetadata(meta, filename), "page", VInt(i + 1)), "total_pages", VInt(n))
  }

  /** `{**metadata, "source": filename, "sheet": name}`. */
  function SheetMetadata(meta: Dict, filename: string, name: string): Dict {
    Set(SourceMetadata(meta, filename), "sheet", VStr(name))
  }

  /** A `.txt` upload is always split: one numbered document per chunk, none for an empty file. */
  lemma TextDocsSpec(text: string, meta: Dict)
    ensures |TextDocs(text, meta)| == 0 <==> |text| == 0
    ensures forall i :: 0 <= i < |TextDocs(text, meta)| ==> 0 < |TextDocs(text, meta)[i].text| <= DefaultChunkSize
  {
    SplitSpec(text);
  }

  /** A Word file with no text still yields one, empty, document. */
  lemma EmptyWordDocument(paragraphs: seq<string>, filename: string, meta: Dict)
    requires forall i :: 0 <= i < |paragraphs| ==> paragraphs[i] == ""
    ensures WordDocs(paragraphs, filename, meta) == [Document("", SourceMetadata(meta, filename))]
  {
    NoParagraphs(paragraphs);
  }

  lemma {:induction false} NoParagraphs(paragraphs: seq<string>)
    requires forall i :: 0 <= i < |paragraphs| ==> paragraphs[i] == ""
    ensures NonEmpty(paragraphs) == []
  {
    if |paragraphs| > 0 {
      NoParagraphs(paragraphs[1..]);
    }
  }

  /** The keys the readers add to the upload's metadata. */
  predicate ReaderKey(key: string) {
    key in ["source", "page", "total_pages", "sheet", "chunk", "total_chunks"]
  }

  /** A reader's tags set their own keys and leave every other entry as it was. */
  lemma ReaderMetadataSpec(meta: Dict, filename: string, i: nat, n: nat, name: string, key: string)
    requires !ReaderKey(key)
    ensures Lookup(SourceMetadata(meta, filename), "source") == Some(VStr(filename))
    ensures Lookup(PageMetadata(meta, filename, i, n), "page") == Some(VInt(i + 1))
    ensures Lookup(PageMetadata(meta, filename, i, n), "total_pages") == Some(VInt(n))
    ensures Lookup(SheetMetadata(meta, filename, name), "sheet") == Some(VStr(name))
    ensures Lookup(SourceMetadata(meta, filename), key) == Lookup(meta, key)
    ensures Lookup(PageMetadata(meta, filename, i, n), key) == Lookup(meta, key)
    ensures Lookup(SheetMetadata(meta, filename, name), key) == Lookup(meta, key)
  {
    assert key != "source" && key != "page" && key != "total_pages" && key != "sheet";
    var src := SourceMetadata(meta, filename);
    SetSpec(meta, "source", VStr(filename));
    SetSpec(src, "page", VInt(i + 1));
    SetSpec(Set(src, "page", VInt(i + 1)), "total_pages", VInt(n));
    SetSpec(src, "sheet", VStr(name));
  }

  // ---------------------------------------------------------------------------
  // The upload.

  /** All of `s` is dots. */
  predicate AllDots(s: string) {
    forall j :: 0 <= j < |s| ==> s[j] == '.'
  }

  /**
   * `os.path.splitext(p)[1]` on POSIX: from the last dot of the last path
   * component, unless everything before that dot in the component is dots
   * (so `.bashrc` has no extension).
   */
  function Splitext(p: string): (ext: string)
    ensures ext == "" || EndsWith(p, ext)
  {
    var nameStart := match LastIndexOf(p, "/") case Some(s) => s + 1 case None => 0;
    match LastIndexOf(p, ".")
    case Some(dot) =>
      if nameStart <= dot && !AllDots(p[nameStart..dot]) then p[dot..] else ""
    case None => ""
  }

  /** A stem with a non-dot character and a dotted suffix without dots or slashes splits back into that suffix. */
  lemma SplitextOfSuffix(stem: string, suffix: string)
    requires !AllDots(stem) && '/' !in stem
    requires '.' !in suffix && '/' !in suffix
    ensures Splitext(stem + "." + suffix) == "." + suffix
  {
    var p := stem + "." + suffix;
    var dot := |stem|;
    assert OccursAt(p, ".", dot);
    LastIndexOfIsLast(p, ".");
    LastIndexOfIsLast(p, "/");
    forall j | dot < j < |p|
      ensures p[j] != '.'
    {
      assert p[j] == suffix[j - dot - 1];
      assert suffix[j - dot - 1] in suffix;
    }
    forall j | 0 <= j < |p|
      ensures p[j] != '/'
    {
      if j < |stem| {
        assert p[j] == stem[j];
        assert stem[j] in stem;
      } else if j > dot {
        assert p[j] == suffix[j - dot - 1];
        assert suffix[j - dot - 1] in suffix;
      }
    }
    forall j ensures !OccursAt(p, ".", j) || j <= dot {
      OccursChar(p, '.', j);
    }
    forall j ensures !OccursAt(p, "/", j) {
      OccursChar(p, '/', j);
    }
    assert !Contains(p, "/");
    assert LastIndexOf(p, "/") == None;
    assert LastIndexOf(p, ".") == Some(dot);
    assert p[0..dot] == stem;
    assert p[dot..] == "." + suffix;
  }

  /** The lower-cased extension `ingest_file` dispatches on. */
  function Extension(filename: string): string {
    Lower(Splitext(filename))
  }

  /** An upload: its name (None or "" when the client sent none), its size in bytes, and what its parser made of it. */
  datatype Upload = Upload(filename: Option<string>, size: nat, payload: Result<Payload>)

  /** `file.filename or "unknown_file"`. */
  function FileName(u: Upload): (name: string)
    ensures |name| > 0
  {
    match u.filename
    case Some(n) => if |n| > 0 then n else "unknown_file"
    case None => "unknown_file"
  }

  /** `len(content) / (1024 * 1024) > MAX_UPLOAD_SIZE_MB`, in exact arithmetic. */
  predicate TooLarge(size: nat) {
    size > MaxUploadMegabytes * Megabyte
  }

  /** The metadata every document of an upload starts from. */
  function BaseMetadata(category: string, now: string, filename: string, ext: string, size: nat): Dict {
    [("category", VStr(category)), ("date", VStr(now)), ("filename", VStr(filename)),
     ("file_type", VStr(ext)), ("file_size", VInt(size))]
  }

  /** None of the upload's own keys is one the readers write. */
  lemma BaseMetadataSpec(category: string, now: string, filename: string, ext: string, size: nat)
    ensures var m := BaseMetadata(category, now, filename, ext, size);
      && Lookup(m, "category") == Some(VStr(category))
      && Lookup(m, "filename") == Some(VStr(filename))
      && Lookup(m, "file_type") == Some(VStr(ext))
      && !ReaderKey("category") && !ReaderKey("filename") && !ReaderKey("file_type")
  {
    var m := BaseMetadata(category, now, filename, ext, size);
    assert m[1..] == [("date", VStr(now)), ("filename", VStr(filename)), ("file_type", VStr(ext)), ("file_size", VInt(size))];
    assert m[1..][1..] == [("filename", VStr(filename)), ("file_type", VStr(ext)), ("file_size", VInt(size))];
    assert m[1..][1..][1..] == [("file_type", VStr(ext)), ("file_size", VInt(size))];
    assert Lookup(m[1..][1..][1..], "file_type") == Some(VStr(ext));
    assert Lookup(m[1..][1..], "file_type") == Some(VStr(ext));
    assert Lookup(m[1..][1..], "filename") == Some(VStr(filename));
    assert "category"[1] != "filename"[1];
    assert Lookup(m[1..], "filename") == Some(VStr(filename));
    assert Lookup(m[1..], "file_type") == Some(VStr(ext));
  }

  /**
   * The documents the reader for `ext` makes of the payload; an error when the
   * parser raised or produced something that reader does not read.
   */
  function Read(ext: string, payload: Result<Payload>, filename: string, meta: Dict): Result<seq<Document>> {
    match payload
    case Err(e) => Err(e)
    case Ok(p) =>
      if ext == ".pdf" && p.Pages? then Ok(PdfDocs(p.pages, filename, meta))
      else if (ext == ".xlsx" || ext == ".xls") && p.Workbook? then Ok(ExcelDocs(p.sheets, filename, meta))
      else if ext == ".docx" && p.Paragraphs? then Ok(WordDocs(p.paragraphs, filename, meta))
      else if ext == ".csv" && p.Table? then Ok(CsvDocs(p.table, filename, meta))
      else if ext == ".txt" && p.Plain? then Ok(TextDocs(p.text, meta))
      else Err("the parser for " + ext + " failed")
  }

  /** The report `ingest_file` returns; its `status` is always `"success"`. */
  datatype Report = Report(filename: string, fileType: string, category: string, chunksAdded: nat)

  /** The store after an upload, and the report `ingest_file` returns or the error it raises. */
  datatype IngestOutcome = IngestOutcome(store: Store, report: Result<Report>)

  /** `ingest_file`. */
  function IngestFile(s: Store, u: Upload, category: string, now: string, embedded: bool, saved: bool): (r: IngestOutcome)
    ensures s.documents <= r.store.documents
    ensures Aligned(s) ==> Aligned(r.store)
    ensures TooLarge(u.size) || Extension(FileName(u)) !in AllowedFileTypes ==> r.store == s && r.report.Err?
  {
    if TooLarge(u.size) then IngestOutcome(s, Err("file too large"))
    else
      var filename := FileName(u);
      var ext := Extension(filename);
      if ext !in AllowedFileTypes then IngestOutcome(s, Err("unsupported file type: " + ext))
      else
        var meta := BaseMetadata(category, now, filename, ext, u.size);
        match Read(ext, u.payload, filename, meta)
        case Err(e) => IngestOutcome(s, Err(e))
        case Ok(docs) =>
          var added := AddDocuments(s, docs, embedded, saved);
          match added.added
          case Err(e) => IngestOutcome(added.store, Err(e))
          case Ok(n) => IngestOutcome(added.store, Ok(Report(filename, ext, category, n)))
  }

  /** The readers only write their own keys, so the upload's own entries reach every document. */
  lemma ReadCarries(ext: string, payload: Result<Payload>, filename: string, meta: Dict, key: string, v: Value)
    requires !ReaderKey(key) && Lookup(meta, key) == Some(v)
    requires Read(ext, payload, filename, meta).Ok?
    ensures Carries(Read(ext, payload, filename, meta).value, key, v)
  {
    assert key != "chunk" && key != "total_chunks";
    var p := payload.value;
    ReaderMetadataSpec(meta, filename, 0, 0, "", key);
    if ext == ".pdf" && p.Pages? {
      var pages := p.pages;
      var parts := seq(|pages|, i requires 0 <= i < |pages| =>
        if |pages[i]| == 0 then [] else Section(pages[i], PageMetadata(meta, filename, i, |pages|)));
      forall i | 0 <= i < |pages|
        ensures Carries(parts[i], key, v)
      {
        ReaderMetadataSpec(meta, filename, i, |pages|, "", key);
        SectionCarries(pages[i], PageMetadata(meta, filename, i, |pages|), key, v);
      }
      ConcatCarries(parts, key, v);
    } else if (ext == ".xlsx" || ext == ".xls") && p.Workbook? {
      var sheets := p.sheets;
      var parts := seq(|sheets|, i requires 0 <= i < |sheets| =>
        if sheets[i].empty then [] else Section(SheetText(sheets[i]), SheetMetadata(meta, filename, sheets[i].name)));
      forall i | 0 <= i < |sheets|
        ensures Carries(parts[i], key, v)
      {
        ReaderMetadataSpec(meta, filename, 0, 0, sheets[i].name, key);
        SectionCarries(SheetText(sheets[i]), SheetMetadata(meta, filename, sheets[i].name), key, v);
      }
      ConcatCarries(parts, key, v);
    } else if ext == ".docx" && p.Paragraphs? {
      SectionCarries(Join(NonEmpty(p.paragraphs), "\n"), SourceMetadata(meta, filename), key, v);
    } else if ext == ".csv" && p.Table? {
      if p.table.Some? {
        SectionCarries(p.table.value, SourceMetadata(meta, filename), key, v);
      }
    } else {
      NumberChunksSpec(Split(p.text), meta, key, v);
    }
  }

  /**
   * A successful upload appended documents that all carry its category,
   * file name and file type, and reported how many; a rejected one (too
   * large, wrong type) left the store alone.
   */
  lemma IngestSpec(s: Store, u: Upload, category: string, now: string, embedded: bool, saved: bool)
    ensures var r := IngestFile(s, u, category, now, embedded, saved);
      r.report.Ok? ==>
        && !TooLarge(u.size)
        && Extension(FileName(u)) in AllowedFileTypes
        && r.report.value.chunksAdded == |r.store.documents| - |s.documents|
        && Carries(r.store.documents[|s.documents|..], "category", VStr(category))
        && Carries(r.store.documents[|s.documents|..], "filename", VStr(FileName(u)))
        && Carries(r.store.documents[|s.documents|..], "file_type", VStr(Extension(FileName(u))))
  {
    var r := IngestFile(s, u, category, now, embedded, saved);
    if r.report.Ok? {
      var filename := FileName(u);
      var ext := Extension(filename);
      var meta := BaseMetadata(category, now, filename, ext, u.size);
      var docs := Read(ext, u.payload, filename, meta).value;
      assert r.store.documents[|s.documents|..] == docs;
      BaseMetadataSpec(category, now, filename, ext, u.size);
      ReadCarries(ext, u.payload, filename, meta, "category", VStr(category));
      ReadCarries(ext, u.payload, filename, meta, "filename", VStr(filename));
      ReadCarries(ext, u.payload, filename, meta, "file_type", VStr(ext));
    }
  }
}
