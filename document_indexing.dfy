/**
 * Indexing of the SESI documents (`DocumentIndexingService`): walk the
 * documents directory for Word files, give every extracted document its
 * provenance metadata and a category, cut it into chunks and hand all chunks
 * to the vector store in one batch.  Text extraction (Tika) and the token
 * splitter are oracles; the file system is a snapshot given as a tree.
 */
module DocumentIndexing {
  import opened JavaLang
  import opened VectorStore

  // ---------------------------------------------------------------------
  // The file tree
  // ---------------------------------------------------------------------

  /**
   * A `java.io.File` below the documents directory: a plain file, a
   * directory with its listing, or a directory whose `listFiles()` returns
   * null.
   */
  datatype Entry =
    | File(name: string, path: string)
    | Directory(name: string, path: string, children: seq<Entry>)
    | Unlistable(name: string, path: string)

  /** `file.isDirectory()`. */
  predicate IsDirectory(e: Entry) {
    e.Directory? || e.Unlistable?
  }

  /** `isDocxFile`: a Word name (".docx" or ".doc", any case) that is not an Office lock file ("~$..."). */
  predicate IsDocxFile(name: string) {
    var n := ToLower(name);
    (EndsWith(n, ".docx") || EndsWith(n, ".doc")) && !StartsWith(n, "~$")
  }

  /**
   * The files below `e` that pass the name test `keep`, as `findDocxFiles`
   * collects them: a directory's listing in order, recursing into every
   * directory entry.  The walk is stated for any test so that its lemmas do
   * not depend on what the test looks at.
   */
  function Found(e: Entry, keep: string -> bool): seq<Entry>
    decreases e, 1, 0
  {
    if e.Directory? then FoundAmong(e, |e.children|, keep) else []
  }

  /** The contribution of the first `k` entries of the listing of `e`. */
  function FoundAmong(e: Entry, k: nat, keep: string -> bool): seq<Entry>
    requires e.Directory? && k <= |e.children|
    decreases e, 0, k
  {
    if k == 0 then []
    else
      var c := e.children[k - 1];
      FoundAmong(e, k - 1, keep) +
      (if IsDirectory(c) then Found(c, keep) else if keep(c.name) then [c] else [])
  }

  lemma FoundAmongStep(e: Entry, i: nat, keep: string -> bool)
    requires e.Directory? && i < |e.children|
    ensures var c := e.children[i];
      FoundAmong(e, i + 1, keep) ==
      FoundAmong(e, i, keep) + (if IsDirectory(c) then Found(c, keep) else if keep(c.name) then [c] else [])
  {
  }

  /** What `findDocxFiles(e)` returns. */
  function DocxFiles(e: Entry): seq<Entry> {
    Found(e, IsDocxFile)
  }

  /** `findDocxFiles`: recurse into directories, keep the Word files, in listing order. */
  method FindDocxFiles(directory: Entry) returns (docxFiles: seq<Entry>)
    ensures docxFiles == DocxFiles(directory)
    decreases directory
  {
    docxFiles := [];
    if directory.Directory? {
      var files := directory.children;
      for i := 0 to |files|
        invariant docxFiles == FoundAmong(directory, i, IsDocxFile)
      {
        var file := files[i];
        FoundAmongStep(directory, i, IsDocxFile);
        if IsDirectory(file) {
          var nested := FindDocxFiles(file);
          docxFiles := docxFiles + nested;
        } else if IsDocxFile(file.name) {
          docxFiles := docxFiles + [file];
        }
      }
    }
  }

  /** Reference walk: every entry strictly below `e`, in pre-order. */
  function Descendants(e: Entry): seq<Entry>
    decreases e, 1, 0
  {
    if e.Directory? then DescendantsAmong(e, |e.children|) else []
  }

  function DescendantsAmong(e: Entry, k: nat): seq<Entry>
    requires e.Directory? && k <= |e.children|
    decreases e, 0, k
  {
    if k == 0 then [] else DescendantsAmong(e, k - 1) + [e.children[k - 1]] + Descendants(e.children[k - 1])
  }

  /** The files among `es` that pass `keep`, in order. */
  function Kept(es: seq<Entry>, keep: string -> bool): seq<Entry> {
    if es == [] then []
    else (if !IsDirectory(es[0]) && keep(es[0].name) then [es[0]] else []) + Kept(es[1..], keep)
  }

  lemma {:induction false} KeptAppend(a: seq<Entry>, b: seq<Entry>, keep: string -> bool)
    ensures Kept(a + b, keep) == Kept(a, keep) + Kept(b, keep)
  {
    if a == [] {
      assert a + b == b;
    } else {
      assert (a + b)[1..] == a[1..] + b;
      KeptAppend(a[1..], b, keep);
    }
  }

  lemma KeptOne(c: Entry, keep: string -> bool)
    ensures Kept([c], keep) == if !IsDirectory(c) && keep(c.name) then [c] else []
  {
    assert [c][1..] == [];
  }

  lemma {:induction false} KeptMembers(es: seq<Entry>, x: Entry, keep: string -> bool)
    ensures x in Kept(es, keep) <==> x in es && !IsDirectory(x) && keep(x.name)
  {
    if es != [] {
      KeptMembers(es[1..], x, keep);
      assert es == [es[0]] + es[1..];
    }
  }

  lemma {:induction false} FoundIsFilter(e: Entry, keep: string -> bool)
    ensures Found(e, keep) == Kept(Descendants(e), keep)
    decreases e, 1, 0
  {
    if e.Directory? {
      FoundAmongIsFilter(e, |e.children|, keep);
    }
  }

  lemma {:induction false} FoundAmongIsFilter(e: Entry, k: nat, keep: string -> bool)
    requires e.Directory? && k <= |e.children|
    ensures FoundAmong(e, k, keep) == Kept(DescendantsAmong(e, k), keep)
    decreases e, 0, k
  {
    if k > 0 {
      var c := e.children[k - 1];
      FoundAmongIsFilter(e, k - 1, keep);
      FoundIsFilter(c, keep);
      KeptAppend(DescendantsAmong(e, k - 1) + [c], Descendants(c), keep);
      KeptAppend(DescendantsAmong(e, k - 1), [c], keep);
      KeptOne(c, keep);
    }
  }

  /** The Word files among `es`, in order. */
  function WordFilesIn(es: seq<Entry>): seq<Entry> {
    Kept(es, IsDocxFile)
  }

  /**
   * `findDocxFiles` returns exactly the Word files of the tree, in walk
   * order: never a directory, and nothing from a directory whose listing
   * failed.
   */
  lemma FindsExactlyWordFiles(e: Entry, x: Entry)
    ensures DocxFiles(e) == WordFilesIn(Descendants(e))
    ensures x in DocxFiles(e) <==> x in Descendants(e) && !IsDirectory(x) && IsDocxFile(x.name)
  {
    FoundIsFilter(e, IsDocxFile);
    KeptMembers(Descendants(e), x, IsDocxFile);
  }

  /** Office lock files are never indexed. */
  lemma LockFilesSkipped(name: string)
    requires StartsWith(name, "~$")
    ensures !IsDocxFile(name)
  {
    var n := ToLower(name);
    assert n[0] == LowerChar(name[0]) == '~' && n[1] == LowerChar(name[1]) == '$';
    assert n[..2] == "~$";
  }

  /** The test ignores case (as far as lower-casing is modelled). */
  lemma DocxTestIgnoresCase(name: string)
    ensures IsDocxFile(ToLower(name)) == IsDocxFile(name)
  {
    ToLowerIdempotent(name);
  }

  // ---------------------------------------------------------------------
  // Categories
  // ---------------------------------------------------------------------

  datatype Category = PGR | PCMSO | EXAMES | PRODUTOS | PROCESSOS | GERAL

  /** The metadata value of a category, its Java string. */
  function CategoryName(c: Category): string {
    match c
    case PGR => "PGR"
    case PCMSO => "PCMSO"
    case EXAMES => "EXAMES"
    case PRODUTOS => "PRODUTOS"
    case PROCESSOS => "PROCESSOS"
    case GERAL => "GERAL"
  }

  datatype KeywordRule = KeywordRule(keyword: string, category: Category)

  /** The tests on the lower-cased path, in order. */
  const PathRules: seq<KeywordRule> := [
    KeywordRule("pgr", PGR), KeywordRule("pcmso", PCMSO), KeywordRule("exame", EXAMES),
    KeywordRule("produto", PRODUTOS), KeywordRule("processo", PROCESSOS), KeywordRule("geral", GERAL)
  ]

  /** The tests on the lower-cased file name, in order. */
  const NameRules: seq<KeywordRule> := [
    KeywordRule("pgr", PGR), KeywordRule("pcmso", PCMSO), KeywordRule("exame", EXAMES),
    KeywordRule("m1", PROCESSOS), KeywordRule("modelo", PROCESSOS), KeywordRule("viva", PRODUTOS)
  ]

  /** The category of the first rule whose keyword occurs in `s`. */
  function FirstKeyword(rules: seq<KeywordRule>, s: string): Option<Category> {
    if rules == [] then None
    else if Contains(s, rules[0].keyword) then Some(rules[0].category)
    else FirstKeyword(rules[1..], s)
  }

  /** No keyword occurs, or the result is the category of the first one that does. */
  lemma {:induction false} FirstKeywordFirstMatch(rules: seq<KeywordRule>, s: string)
    ensures var r := FirstKeyword(rules, s);
      (r.None? <==> forall j | 0 <= j < |rules| :: !Contains(s, rules[j].keyword)) &&
      (r.Some? ==>
        exists k | 0 <= k < |rules| ::
          rules[k].category == r.value && Contains(s, rules[k].keyword) &&
          forall j | 0 <= j < k :: !Contains(s, rules[j].keyword))
  {
    if rules != [] && !Contains(s, rules[0].keyword) {
      FirstKeywordFirstMatch(rules[1..], s);
      assert forall j | 1 <= j < |rules| :: rules[j] == rules[1..][j - 1];
      var r := FirstKeyword(rules[1..], s);
      if r.Some? {
        var k :| 0 <= k < |rules[1..]| && rules[1..][k].category == r.value && Contains(s, rules[1..][k].keyword) &&
          forall j | 0 <= j < k :: !Contains(s, rules[1..][j].keyword);
        assert rules[k + 1].category == r.value && Contains(s, rules[k + 1].keyword);
      }
    }
  }

  /** `detectCategory`: the path rules, then the name rules, else GERAL. */
  function DetectCategory(path: string, name: string): Category {
    match FirstKeyword(PathRules, ToLower(path))
    case Some(c) => c
    case None =>
      match FirstKeyword(NameRules, ToLower(name))
      case Some(c) => c
      case None => GERAL
  }

  /** The name rules that can still fire once no path rule has. */
  const ReachableNameRules: seq<KeywordRule> := NameRules[3..]

  lemma {:induction false} FirstKeywordSkip(rules: seq<KeywordRule>, s: string, n: nat)
    requires n <= |rules|
    requires forall j | 0 <= j < n :: !Contains(s, rules[j].keyword)
    ensures FirstKeyword(rules, s) == FirstKeyword(rules[n..], s)
  {
    if n > 0 {
      assert rules[1..][n - 1..] == rules[n..];
      assert forall j | 0 <= j < n - 1 :: rules[1..][j] == rules[j + 1];
      FirstKeywordSkip(rules[1..], s, n - 1);
    }
  }

  /**
   * Because a file's name ends its path, the name tests for "pgr", "pcmso"
   * and "exame" can never fire: the only effects of the name are
   * "m1"/"modelo" giving PROCESSOS and "viva" giving PRODUTOS.
   */
  lemma NameOnlyAddsModelsAndViva(path: string, name: string)
    requires EndsWith(path, name)
    ensures DetectCategory(path, name) ==
      match FirstKeyword(PathRules, ToLower(path))
      case Some(c) => c
      case None =>
        match FirstKeyword(ReachableNameRules, ToLower(name))
        case Some(c) => c
        case None => GERAL
  {
    var lp := ToLower(path);
    var ln := ToLower(name);
    if FirstKeyword(PathRules, lp).None? {
      FirstKeywordFirstMatch(PathRules, lp);
      var prefix := path[..|path| - |name|];
      assert path == prefix + name;
      ToLowerAppend(prefix, name);
      forall j | 0 <= j < 3 ensures !Contains(ln, NameRules[j].keyword) {
        assert NameRules[j].keyword == PathRules[j].keyword;
        if Contains(ln, NameRules[j].keyword) {
          ContainsInSuffix(ToLower(prefix), ln, NameRules[j].keyword);
        }
      }
      FirstKeywordSkip(NameRules, ln, 3);
    }
  }

  /** Detection ignores case, on the path and on the name. */
  lemma CategoryIgnoresCase(path: string, name: string)
    ensures DetectCategory(ToLower(path), ToLower(name)) == DetectCategory(path, name)
  {
    ToLowerIdempotent(path);
    ToLowerIdempotent(name);
  }

  /** The path decides before the name: a "pcmso" folder wins over a "pgr" file name. */
  lemma PathBeatsName(path: string, name: string)
    requires !Contains(ToLower(path), "pgr") && Contains(ToLower(path), "pcmso")
    ensures DetectCategory(path, name) == PCMSO
  {
    var lp := ToLower(path);
    assert !Contains(lp, PathRules[0].keyword) && Contains(lp, PathRules[1].keyword);
    assert FirstKeyword(PathRules, lp) == FirstKeyword(PathRules[1..], lp);
    assert PathRules[1..][0] == PathRules[1];
  }

  /** Without any keyword the category is GERAL. */
  lemma DefaultIsGeral(path: string, name: string)
    requires forall j | 0 <= j < |PathRules| :: !Contains(ToLower(path), PathRules[j].keyword)
    requires forall j | 0 <= j < |NameRules| :: !Contains(ToLower(name), NameRules[j].keyword)
    ensures DetectCategory(path, name) == GERAL
  {
    FirstKeywordFirstMatch(PathRules, ToLower(path));
    FirstKeywordFirstMatch(NameRules, ToLower(name));
  }

  // ---------------------------------------------------------------------
  // loadDocxFile
  // ---------------------------------------------------------------------

  /** What Tika gives for a file: its documents, or an exception. */
  datatype Extraction = Extracted(documents: seq<Document>) | ExtractionFailed

  /** The four keys `loadDocxFile` sets, over whatever the reader put there. */
  function Enrich(doc: Document, file: Entry, category: Category, indexedAt: string): Document {
    Document(doc.content, doc.metadata + map[
      "source" := file.name, "category" := CategoryName(category),
      "path" := file.path, "indexed_at" := indexedAt])
  }

  /** Each document gains the provenance keys and keeps its text and every other key. */
  lemma EnrichSetsProvenance(doc: Document, file: Entry, category: Category, indexedAt: string)
    ensures var d := Enrich(doc, file, category, indexedAt);
      d.content == doc.content &&
      d.metadata.Keys == doc.metadata.Keys + {"source", "category", "path", "indexed_at"} &&
      d.metadata["source"] == file.name && d.metadata["category"] == CategoryName(category) &&
      d.metadata["path"] == file.path && d.metadata["indexed_at"] == indexedAt &&
      forall key | key in doc.metadata && key !in {"source", "category", "path", "indexed_at"} ::
        d.metadata[key] == doc.metadata[key]
  {
  }

  /**
   * The metadata loop of `loadDocxFile`, updating each document in place;
   * `now(file, i)` is the clock read while enriching the i-th document.
   */
  method EnrichAll(documents: seq<Document>, file: Entry, now: (Entry, nat) -> string) returns (enriched: seq<Document>)
    ensures |enriched| == |documents|
    ensures forall i | 0 <= i < |documents| ::
      enriched[i] == Enrich(documents[i], file, DetectCategory(file.path, file.name), now(file, i))
  {
    var category := DetectCategory(file.path, file.name);
    enriched := documents;
    for i := 0 to |enriched|
      invariant |enriched| == |documents|
      invariant forall j | 0 <= j < i :: enriched[j] == Enrich(documents[j], file, category, now(file, j))
      invariant forall j | i <= j < |enriched| :: enriched[j] == documents[j]
    {
      enriched := enriched[i := Enrich(enriched[i], file, category, now(file, i))];
    }
  }

  function EnrichedDocuments(documents: seq<Document>, file: Entry, now: (Entry, nat) -> string): (r: seq<Document>)
    ensures |r| == |documents|
  {
    seq(|documents|, i requires 0 <= i < |documents| =>
      Enrich(documents[i], file, DetectCategory(file.path, file.name), now(file, i)))
  }

  /** The chunks of the documents, or None as soon as the splitter throws on one of them. */
  function SplitAll(documents: seq<Document>, split: Document -> Option<seq<Document>>): Option<seq<Document>> {
    if documents == [] then Some([])
    else
      match SplitAll(documents[..|documents| - 1], split)
      case None => None
      case Some(chunks) =>
        match split(documents[|documents| - 1])
        case None => None
        case Some(more) => Some(chunks + more)
  }

  /** What `loadDocxFile(file)` returns: every failure is caught and gives no chunks. */
  function FileChunks(file: Entry, extract: Entry -> Extraction, split: Document -> Option<seq<Document>>,
                      now: (Entry, nat) -> string): seq<Document> {
    match extract(file)
    case ExtractionFailed => []
    case Extracted(documents) =>
      if documents == [] then []
      else
        match SplitAll(EnrichedDocuments(documents, file, now), split)
        case None => []
        case Some(chunks) => chunks
  }

  /** `loadDocxFile`: extract, enrich in place, then split document by document. */
  method LoadDocxFile(file: Entry, extract: Entry -> Extraction, split: Document -> Option<seq<Document>>,
                      now: (Entry, nat) -> string) returns (allChunks: seq<Document>)
    ensures allChunks == FileChunks(file, extract, split, now)
  {
    var extraction := extract(file);
    if extraction.ExtractionFailed? {
      return [];
    }
    var documents := extraction.documents;
    if documents == [] {
      return [];
    }
    documents := EnrichAll(documents, file, now);
    assert documents == EnrichedDocuments(extraction.documents, file, now);
    allChunks := [];
    for i := 0 to |documents|
      invariant SplitAll(documents[..i], split) == Some(allChunks)
    {
      assert documents[..i + 1][..i] == documents[..i];
      match split(documents[i])
      case None =>
        SplitAllStaysFailed(documents, split, i + 1);
        return [];
      case Some(chunks) =>
        allChunks := allChunks + chunks;
    }
    assert documents[..|documents|] == documents;
  }

  lemma {:induction false} SplitAllStaysFailed(documents: seq<Document>, split: Document -> Option<seq<Document>>, n: nat)
    requires n <= |documents| && SplitAll(documents[..n], split).None?
    ensures SplitAll(documents, split).None?
    decreases |documents| - n
  {
    if n < |documents| {
      assert documents[..n + 1][..n] == documents[..n];
      SplitAllStaysFailed(documents, split, n + 1);
    } else {
      assert documents[..n] == documents;
    }
  }

  /** The splitter keeps every chunk's metadata equal to its document's. */
  ghost predicate SplitKeepsMetadata(split: Document -> Option<seq<Document>>) {
    forall d: Document :: split(d).Some? ==>
      forall j | 0 <= j < |split(d).value| :: split(d).value[j].metadata == d.metadata
  }

  /** The provenance every chunk of `file` carries. */
  predicate FromFile(chunk: Document, file: Entry) {
    "source" in chunk.metadata && chunk.metadata["source"] == file.name &&
    "category" in chunk.metadata && chunk.metadata["category"] == CategoryName(DetectCategory(file.path, file.name)) &&
    "path" in chunk.metadata && chunk.metadata["path"] == file.path
  }

  lemma {:induction false} SplitAllProvenance(documents: seq<Document>, split: Document -> Option<seq<Document>>, file: Entry)
    requires SplitKeepsMetadata(split)
    requires forall i | 0 <= i < |documents| :: FromFile(documents[i], file)
    requires SplitAll(documents, split).Some?
    ensures forall c | c in SplitAll(documents, split).value :: FromFile(c, file)
  {
    if documents != [] {
      var init := documents[..|documents| - 1];
      var last := documents[|documents| - 1];
      SplitAllProvenance(init, split, file);
      forall c | c in split(last).value ensures FromFile(c, file) {
        var j :| 0 <= j < |split(last).value| && split(last).value[j] == c;
      }
    }
  }

  /** With a metadata-preserving splitter, every chunk of a file names that file, its path and its category. */
  lemma FileChunksProvenance(file: Entry, extract: Entry -> Extraction, split: Document -> Option<seq<Document>>,
                             now: (Entry, nat) -> string)
    requires SplitKeepsMetadata(split)
    ensures forall c | c in FileChunks(file, extract, split, now) :: FromFile(c, file)
  {
    if extract(file).Extracted? && extract(file).documents != [] {
      var enriched := EnrichedDocuments(extract(file).documents, file, now);
      forall i | 0 <= i < |enriched| ensures FromFile(enriched[i], file) {
        EnrichSetsProvenance(extract(file).documents[i], file, DetectCategory(file.path, file.name), now(file, i));
      }
      if SplitAll(enriched, split).Some? {
        SplitAllProvenance(enriched, split, file);
      }
    }
  }

  // ---------------------------------------------------------------------
  // indexAllDocuments
  // ---------------------------------------------------------------------

  /** The chunks of the files, file after file. */
  function AllChunks(files: seq<Entry>, extract: Entry -> Extraction, split: Document -> Option<seq<Document>>,
                     now: (Entry, nat) -> string): seq<Document> {
    if files == [] then []
    else AllChunks(files[..|files| - 1], extract, split, now) + FileChunks(files[|files| - 1], extract, split, now)
  }

  datatype IndexOutcome = DirectoryMissing | NoDocxFiles | NothingIndexed | Indexed(chunks: seq<Document>)

  /**
   * What `indexAllDocuments` does, given the documents directory (None when
   * it does not exist).
   */
  function IndexSpec(baseDir: Option<Entry>, extract: Entry -> Extraction,
                     split: Document -> Option<seq<Document>>, now: (Entry, nat) -> string): IndexOutcome {
    match baseDir
    case None => DirectoryMissing
    case Some(dir) =>
      var files := DocxFiles(dir);
      if files == [] then NoDocxFiles
      else
        var chunks := AllChunks(files, extract, split, now);
        if chunks == [] then NothingIndexed else Indexed(chunks)
  }

  class DocumentIndexingService {
    const store: Store
    /** `documents.sesi.reindex-on-startup`. */
    const reindexOnStartup: bool

    constructor(store: Store, reindexOnStartup: bool)
      ensures this.store == store && this.reindexOnStartup == reindexOnStartup
    {
      this.store := store;
      this.reindexOnStartup := reindexOnStartup;
    }

    /** `indexAllDocuments`: one `add` with everything, or none at all. */
    method IndexAllDocuments(baseDir: Option<Entry>, extract: Entry -> Extraction,
                             split: Document -> Option<seq<Document>>, now: (Entry, nat) -> string)
      returns (outcome: IndexOutcome)
      modifies store
      ensures outcome == IndexSpec(baseDir, extract, split, now)
      ensures outcome.Indexed? ==> store.batches == old(store.batches) + [outcome.chunks]
      ensures !outcome.Indexed? ==> store.batches == old(store.batches)
    {
      if baseDir.None? {
        return DirectoryMissing;
      }
      var docxFiles := FindDocxFiles(baseDir.value);
      if docxFiles == [] {
        return NoDocxFiles;
      }
      var allDocuments: seq<Document> := [];
      for i := 0 to |docxFiles|
        invariant allDocuments == AllChunks(docxFiles[..i], extract, split, now)
        invariant store.batches == old(store.batches)
      {
        assert docxFiles[..i + 1][..i] == docxFiles[..i];
        assert AllChunks(docxFiles[..i + 1], extract, split, now) ==
          AllChunks(docxFiles[..i], extract, split, now) + FileChunks(docxFiles[i], extract, split, now);
        var docs := LoadDocxFile(docxFiles[i], extract, split, now);
        allDocuments := allDocuments + docs;
      }
      assert docxFiles[..|docxFiles|] == docxFiles;
      if allDocuments != [] {
        store.Add(allDocuments);
        outcome := Indexed(allDocuments);
      } else {
        outcome := NothingIndexed;
      }
    }

    /** `indexDocumentsOnStartup`: index only when configured to. */
    method IndexDocumentsOnStartup(baseDir: Option<Entry>, extract: Entry -> Extraction,
                                   split: Document -> Option<seq<Document>>, now: (Entry, nat) -> string)
      returns (outcome: Option<IndexOutcome>)
      modifies store
      ensures reindexOnStartup ==> outcome == Some(IndexSpec(baseDir, extract, split, now))
      ensures !reindexOnStartup ==> outcome == None && store.batches == old(store.batches)
      ensures outcome.Some? && outcome.value.Indexed? ==> store.batches == old(store.batches) + [outcome.value.chunks]
      ensures (outcome.None? || !outcome.value.Indexed?) ==> store.batches == old(store.batches)
    {
      if reindexOnStartup {
        var o := IndexAllDocuments(baseDir, extract, split, now);
        outcome := Some(o);
      } else {
        outcome := None;
      }
    }
  }

  lemma {:induction false} AllChunksAppend(a: seq<Entry>, b: seq<Entry>, extract: Entry -> Extraction,
                                           split: Document -> Option<seq<Document>>, now: (Entry, nat) -> string)
    ensures AllChunks(a + b, extract, split, now) == AllChunks(a, extract, split, now) + AllChunks(b, extract, split, now)
    decreases |b|
  {
    if b == [] {
      assert a + b == a;
    } else {
      assert (a + b)[..|a + b| - 1] == a + b[..|b| - 1];
      AllChunksAppend(a, b[..|b| - 1], extract, split, now);
    }
  }

  /** Every failure of `loadDocxFile` is caught and gives no chunks. */
  lemma FailuresGiveNoChunks(file: Entry, extract: Entry -> Extraction,
                             split: Document -> Option<seq<Document>>, now: (Entry, nat) -> string)
    requires extract(file).ExtractionFailed? ||
             (extract(file).documents != [] &&
              SplitAll(EnrichedDocuments(extract(file).documents, file, now), split).None?)
    ensures FileChunks(file, extract, split, now) == []
  {
  }

  /**
   * A file whose loading fails contributes nothing, and the files after it
   * are still indexed: the batch is the one the other files give.
   */
  lemma FailingFileContributesNothing(files: seq<Entry>, i: nat, extract: Entry -> Extraction,
                                      split: Document -> Option<seq<Document>>, now: (Entry, nat) -> string)
    requires i < |files|
    requires extract(files[i]).ExtractionFailed? ||
             (extract(files[i]).documents != [] &&
              SplitAll(EnrichedDocuments(extract(files[i]).documents, files[i], now), split).None?)
    ensures AllChunks(files, extract, split, now) == AllChunks(files[..i] + files[i + 1..], extract, split, now)
  {
    FailuresGiveNoChunks(files[i], extract, split, now);
    SplitAround(files, i);
    AllChunksDrop(files[..i], files[i], files[i + 1..], extract, split, now);
  }

  lemma SplitAround<T>(xs: seq<T>, i: nat)
    requires i < |xs|
    ensures xs == xs[..i] + [xs[i]] + xs[i + 1..]
  {
  }

  /** Dropping a file that gives no chunks leaves the batch unchanged. */
  lemma AllChunksDrop(before: seq<Entry>, file: Entry, after: seq<Entry>, extract: Entry -> Extraction,
                      split: Document -> Option<seq<Document>>, now: (Entry, nat) -> string)
    requires FileChunks(file, extract, split, now) == []
    ensures AllChunks(before + [file] + after, extract, split, now) == AllChunks(before + after, extract, split, now)
  {
    var x := AllChunks(before, extract, split, now);
    var y := AllChunks(after, extract, split, now);
    assert AllChunks(before + [file], extract, split, now) == x by {
      assert (before + [file])[..|before|] == before;
    }
    assert AllChunks(before + [file] + after, extract, split, now) == x + y by {
      AllChunksAppend(before + [file], after, extract, split, now);
    }
    AllChunksAppend(before, after, extract, split, now);
  }

  lemma {:induction false} AllChunksProvenance(files: seq<Entry>, extract: Entry -> Extraction,
                                               split: Document -> Option<seq<Document>>, now: (Entry, nat) -> string)
    requires SplitKeepsMetadata(split)
    ensures forall c | c in AllChunks(files, extract, split, now) :: exists f | f in files :: FromFile(c, f)
  {
    if files != [] {
      var init := files[..|files| - 1];
      var last := files[|files| - 1];
      AllChunksProvenance(init, extract, split, now);
      FileChunksProvenance(last, extract, split, now);
      forall c | c in AllChunks(files, extract, split, now) ensures exists f | f in files :: FromFile(c, f) {
        if c in AllChunks(init, extract, split, now) {
          var f :| f in init && FromFile(c, f);
          assert f in files;
        } else {
          assert FromFile(c, last);
        }
      }
    }
  }

  /**
   * With a metadata-preserving splitter, every chunk handed to the store
   * names a Word file found in the documents tree, its path and its category.
   */
  lemma IndexedChunksProvenance(baseDir: Option<Entry>, extract: Entry -> Extraction,
                                split: Document -> Option<seq<Document>>, now: (Entry, nat) -> string)
    requires SplitKeepsMetadata(split)
    ensures var o := IndexSpec(baseDir, extract, split, now);
      o.Indexed? ==>
        forall c | c in o.chunks ::
          exists f | f in Descendants(baseDir.value) :: !IsDirectory(f) && IsDocxFile(f.name) && FromFile(c, f)
  {
    var o := IndexSpec(baseDir, extract, split, now);
    if o.Indexed? {
      var files := DocxFiles(baseDir.value);
      AllChunksProvenance(files, extract, split, now);
      forall c | c in o.chunks
        ensures exists f | f in Descendants(baseDir.value) :: !IsDirectory(f) && IsDocxFile(f.name) && FromFile(c, f)
      {
        var f :| f in files && FromFile(c, f);
        FindsExactlyWordFiles(baseDir.value, f);
      }
    }
  }

  /** No add when the directory is missing, holds no Word file, or gives no chunk. */
  lemma AddOnlyWithChunks(baseDir: Option<Entry>, extract: Entry -> Extraction,
                          split: Document -> Option<seq<Document>>, now: (Entry, nat) -> string)
    ensures var o := IndexSpec(baseDir, extract, split, now);
      (o == DirectoryMissing <==> baseDir.None?) &&
      (o == NoDocxFiles <==> baseDir.Some? && DocxFiles(baseDir.value) == []) &&
      (o.Indexed? ==> o.chunks != [] && o.chunks == AllChunks(DocxFiles(baseDir.value), extract, split, now))
  {
  }
}
