/** The session state App.py keeps in `st.session_state`, and the callbacks
    that change it: the list editors, the document upload batch, and the
    two keyed caches of generated chapter contents and quizzes. The
    generators behind the caches are parameters; two ghost logs record
    every request made to them, so that "at most once" can be stated. */
module Session {
  import opened Wrappers
  import opened PyStr
  import opened Credentials
  import opened Documents
  import opened Generation

  // ---------------------------------------------------------------------
  // Course structure

  /** A chapter number is an opaque JSON value (such as 1.1), compared for
      equality and formatted as `literal`. */
  datatype ChapterNumber = ChapterNumber(literal: string)

  datatype Chapter = Chapter(number: ChapterNumber, title: string, description: string, keyPoints: seq<string>)

  datatype CourseModule = CourseModule(number: int, title: string, chapters: seq<Chapter>)

  /** The stored course structure: a mapping with a "modules" list, or one
      without it (an empty mapping or an `{"error": …}` mapping). */
  datatype CourseStructure = WithModules(modules: seq<CourseModule>) | WithoutModules

  function ModuleNumber(md: CourseModule): int {
    md.number
  }

  function ChapterNumberOf(ch: Chapter): ChapterNumber {
    ch.number
  }

  /** The index of the first element at or after `from` whose `key` is `k`,
      or -1. */
  function FirstIndex<T, K(==)>(xs: seq<T>, key: T -> K, k: K, from: nat): (r: int)
    requires from <= |xs|
    ensures r == -1 || from <= r < |xs|
    decreases |xs| - from
  {
    if from == |xs| then -1
    else if key(xs[from]) == k then from
    else FirstIndex(xs, key, k, from + 1)
  }

  /** A found element has the key, and no element before it does. */
  lemma {:induction false} FirstIndexSpec<T, K>(xs: seq<T>, key: T -> K, k: K, from: nat)
    requires from <= |xs|
    ensures var r := FirstIndex(xs, key, k, from);
      && (r >= 0 ==> key(xs[r]) == k)
      && (forall j :: from <= j < |xs| && (r < 0 || j < r) ==> key(xs[j]) != k)
    decreases |xs| - from
  {
    if from < |xs| && key(xs[from]) != k {
      FirstIndexSpec(xs, key, k, from + 1);
    }
  }

  /** The `for … in …: if …: break` searches of App.py. */
  method FindFirst<T, K(==)>(xs: seq<T>, key: T -> K, k: K) returns (idx: int)
    ensures idx == FirstIndex(xs, key, k, 0)
    ensures idx >= 0 ==> idx < |xs| && key(xs[idx]) == k
    ensures forall j :: 0 <= j < |xs| && (idx < 0 || j < idx) ==> key(xs[j]) != k
  {
    FirstIndexSpec(xs, key, k, 0);
    var i := 0;
    while i < |xs|
      invariant 0 <= i <= |xs|
      invariant FirstIndex(xs, key, k, i) == FirstIndex(xs, key, k, 0)
    {
      if key(xs[i]) == k {
        return i;
      }
      i := i + 1;
    }
    return -1;
  }

  /** The module and chapter `generate_chapter_detail` works on: only the
      first module with the number is searched for the chapter. A structure
      without "modules" raises KeyError, which leaves the state as it was. */
  function ChapterLookup(cs: CourseStructure, m: int, c: ChapterNumber): Option<(CourseModule, Chapter)> {
    match cs
      case WithoutModules => None
      case WithModules(modules) =>
        var i := FirstIndex(modules, ModuleNumber, m, 0);
        if i < 0 then None
        else
          var j := FirstIndex(modules[i].chapters, ChapterNumberOf, c, 0);
          if j < 0 then None else Some((modules[i], modules[i].chapters[j]))
  }

  /** The two nested searches of `generate_chapter_detail`. */
  method LocateChapter(cs: CourseStructure, m: int, c: ChapterNumber)
    returns (found: Option<(CourseModule, Chapter)>)
    ensures found == ChapterLookup(cs, m, c)
  {
    if cs.WithoutModules? {
      return None;
    }
    var mi := FindFirst(cs.modules, ModuleNumber, m);
    if mi < 0 {
      return None;
    }
    var selected := cs.modules[mi];
    var ci := FindFirst(selected.chapters, ChapterNumberOf, c);
    if ci < 0 {
      return None;
    }
    return Some((selected, selected.chapters[ci]));
  }

  /** A found chapter is the first chapter with the number in the first
      module with the number. */
  lemma ChapterLookupSpec(cs: CourseStructure, m: int, c: ChapterNumber)
    ensures var found := ChapterLookup(cs, m, c);
      found.Some? ==>
        && cs.WithModules?
        && (exists i, j :: 0 <= i < |cs.modules| && 0 <= j < |cs.modules[i].chapters|
              && found == Some((cs.modules[i], cs.modules[i].chapters[j]))
              && cs.modules[i].number == m
              && (forall i' :: 0 <= i' < i ==> cs.modules[i'].number != m)
              && cs.modules[i].chapters[j].number == c
              && (forall j' :: 0 <= j' < j ==> cs.modules[i].chapters[j'].number != c))
  {
    if cs.WithModules? {
      FirstIndexSpec(cs.modules, ModuleNumber, m, 0);
      var i := FirstIndex(cs.modules, ModuleNumber, m, 0);
      if i >= 0 {
        FirstIndexSpec(cs.modules[i].chapters, ChapterNumberOf, c, 0);
      }
    }
  }

  /** A chapter with the number in the first module with the number is
      found: the lookup fails only when no such chapter exists there. */
  lemma PresentIsFound(cs: CourseStructure, m: int, c: ChapterNumber, i: int, j: int)
    requires cs.WithModules? && 0 <= i < |cs.modules|
    requires cs.modules[i].number == m
    requires forall i' :: 0 <= i' < i ==> cs.modules[i'].number != m
    requires 0 <= j < |cs.modules[i].chapters| && cs.modules[i].chapters[j].number == c
    ensures ChapterLookup(cs, m, c).Some?
    ensures ChapterLookup(cs, m, c).value.0 == cs.modules[i]
  {
    FirstIndexSpec(cs.modules, ModuleNumber, m, 0);
    FirstIndexSpec(cs.modules[i].chapters, ChapterNumberOf, c, 0);
  }

  // ---------------------------------------------------------------------
  // Cache keys

  /** `f"{module_number}_{chapter_number}"`. */
  function ChapterKey(m: int, c: ChapterNumber): string {
    IntToString(m) + "_" + c.literal
  }

  /** `f"module_{module_number}_quiz"`. */
  function QuizKey(m: int): string {
    "module_" + IntToString(m) + "_quiz"
  }

  /** Two strings that both start with a separator-free part followed by the
      separator agree on that part. */
  lemma SameHead(a: string, b: string, c: string, d: string, x: char)
    requires x !in a && x !in c
    requires a + [x] + b == c + [x] + d
    ensures a == c && b == d
  {
    SplitAtFirst(a, x, b);
    SplitAtFirst(c, x, d);
    var s := a + [x] + b;
    assert a == Split(s, x)[0] == c;
    assert b == s[|a| + 1..];
    assert d == s[|c| + 1..];
  }

  lemma IntToStringInjective(m: int, n: int)
    requires IntToString(m) == IntToString(n)
    ensures m == n
  {
    ParseIntToString(m);
    ParseIntToString(n);
  }

  /** Different chapters never share a cache key. */
  lemma ChapterKeyInjective(m: int, c: ChapterNumber, n: int, d: ChapterNumber)
    requires ChapterKey(m, c) == ChapterKey(n, d)
    ensures m == n && c == d
  {
    IntToStringNoSpace(m);
    IntToStringNoSpace(n);
    SameHead(IntToString(m), c.literal, IntToString(n), d.literal, '_');
    IntToStringInjective(m, n);
  }

  /** Different modules never share a quiz key. */
  lemma QuizKeyInjective(m: int, n: int)
    requires QuizKey(m) == QuizKey(n)
    ensures m == n
  {
    var k := QuizKey(m);
    assert IntToString(m) == k[7..|k| - 5];
    assert IntToString(n) == k[7..|k| - 5];
    IntToStringInjective(m, n);
  }

  // ---------------------------------------------------------------------
  // Documents

  /** One entry of `uploaded_documents`. */
  datatype Document = Document(name: string, ext: string, size: nat, preview: string)

  /** An uploaded file: its name and its bytes. */
  datatype Upload = Upload(name: string, data: seq<bv8>)

  const MaxUploadSize: nat := 10 * 1024 * 1024

  const PreviewLength: nat := 1000

  /** `text[:1000] + "..." if len(text) > 1000 else text`. */
  function Preview(text: string): (p: string)
    ensures |p| <= PreviewLength + 3
    ensures |text| <= PreviewLength ==> p == text
    ensures |text| > PreviewLength ==>
      |p| == PreviewLength + 3 && p[..PreviewLength] == text[..PreviewLength] && p[PreviewLength..] == "..."
  {
    if |text| > PreviewLength then text[..PreviewLength] + "..." else text
  }

  function Names(docs: seq<Document>): (ns: seq<string>)
    ensures |ns| == |docs| && forall i :: 0 <= i < |docs| ==> ns[i] == docs[i].name
  {
    seq(|docs|, i requires 0 <= i < |docs| => docs[i].name)
  }

  /** What the upload filter lets into the document list. */
  ghost predicate Admissible(d: Document) {
    && d.ext == FileExtension(d.name)
    && d.ext in SupportedExtensions
    && d.size <= MaxUploadSize
    && |d.preview| <= PreviewLength + 3
  }

  /** Names are pairwise distinct, every document passed the filter, and
      the embedding map has exactly one entry per document name. */
  ghost predicate DocsValid(docs: seq<Document>, embeddings: map<string, seq<Embedding>>) {
    && DistinctNames(docs)
    && (forall i :: 0 <= i < |docs| ==> Admissible(docs[i]))
    && embeddings.Keys == NameSet(docs)
  }

  ghost predicate DistinctNames(docs: seq<Document>) {
    forall i, j :: 0 <= i < j < |docs| ==> docs[i].name != docs[j].name
  }

  ghost function NameSet(docs: seq<Document>): set<string> {
    set i | 0 <= i < |docs| :: docs[i].name
  }

  lemma NotInNames(docs: seq<Document>, n: string)
    requires n !in Names(docs)
    ensures forall i :: 0 <= i < |docs| ==> docs[i].name != n
    ensures n !in NameSet(docs)
  {
    forall i | 0 <= i < |docs| ensures docs[i].name != n {
      assert Names(docs)[i] == docs[i].name;
    }
  }

  lemma NameSetSnoc(docs: seq<Document>, d: Document)
    ensures NameSet(docs + [d]) == NameSet(docs) + {d.name}
  {
    var r := docs + [d];
    forall n | n in NameSet(r) ensures n in NameSet(docs) + {d.name} {
      var i :| 0 <= i < |r| && r[i].name == n;
      if i < |docs| {
        assert docs[i].name == n;
      }
    }
    forall n | n in NameSet(docs) + {d.name} ensures n in NameSet(r) {
      if n != d.name {
        var i :| 0 <= i < |docs| && docs[i].name == n;
        assert r[i].name == n;
      } else {
        assert r[|docs|].name == n;
      }
    }
  }

  /** Appending an admissible document under a fresh name keeps the invariant. */
  lemma DocsValidSnoc(docs: seq<Document>, embeddings: map<string, seq<Embedding>>,
                      d: Document, v: seq<Embedding>)
    requires DocsValid(docs, embeddings) && Admissible(d)
    requires forall i :: 0 <= i < |docs| ==> docs[i].name != d.name
    ensures DocsValid(docs + [d], embeddings[d.name := v])
  {
    NameSetSnoc(docs, d);
    var r := docs + [d];
    forall i, j | 0 <= i < j < |r| ensures r[i].name != r[j].name {
      if j < |docs| {
        assert r[i] == docs[i] && r[j] == docs[j];
      }
    }
    assert forall i :: 0 <= i < |r| ==> Admissible(r[i]);
  }

  /** The document list and embedding map together. */
  datatype Uploaded = Uploaded(docs: seq<Document>, embeddings: map<string, seq<Embedding>>)

  /** One iteration of the upload loop: a stored name, an unsupported
      extension, an oversized file or a failing `process_document` leaves
      everything as it was; otherwise the document and its embeddings are
      stored. `process` is `process_document` on the file, `Failure` for an
      exception. */
  function UploadStep(st: Uploaded, f: Upload,
                      process: Upload -> Result<(string, seq<Embedding>), string>): Uploaded {
    if f.name in Names(st.docs) then st
    else
      var ext := FileExtension(f.name);
      if ext !in SupportedExtensions then st
      else if |f.data| > MaxUploadSize then st
      else match process(f)
        case Failure(_) => st
        case Success(result) =>
          Uploaded(st.docs + [Document(f.name, ext, |f.data|, Preview(result.0))],
                   st.embeddings[f.name := result.1])
  }

  /** The upload loop over a batch, file by file. */
  function UploadAll(st: Uploaded, files: seq<Upload>,
                     process: Upload -> Result<(string, seq<Embedding>), string>): Uploaded
    decreases |files|
  {
    if files == [] then st
    else UploadStep(UploadAll(st, files[..|files| - 1], process), files[|files| - 1], process)
  }

  /** One upload step keeps the document invariant, keeps the documents
      already stored with their embeddings, and adds at most one document. */
  lemma UploadStepKeeps(st: Uploaded, f: Upload,
                        process: Upload -> Result<(string, seq<Embedding>), string>)
    requires DocsValid(st.docs, st.embeddings)
    ensures var r := UploadStep(st, f, process);
      && DocsValid(r.docs, r.embeddings)
      && st.docs <= r.docs && |r.docs| <= |st.docs| + 1
      && forall n :: n in st.embeddings ==> n in r.embeddings && r.embeddings[n] == st.embeddings[n]
  {
    var r := UploadStep(st, f, process);
    if r != st {
      var ext := FileExtension(f.name);
      NotInNames(st.docs, f.name);
      var d := Document(f.name, ext, |f.data|, Preview(process(f).value.0));
      assert Admissible(d);
      DocsValidSnoc(st.docs, st.embeddings, d, process(f).value.1);
    }
  }

  /** The whole batch keeps the document invariant and never drops or
      replaces a document or embedding that was already stored. */
  lemma {:induction false} UploadAllKeeps(st: Uploaded, files: seq<Upload>,
                                          process: Upload -> Result<(string, seq<Embedding>), string>)
    requires DocsValid(st.docs, st.embeddings)
    ensures var r := UploadAll(st, files, process);
      && DocsValid(r.docs, r.embeddings)
      && st.docs <= r.docs && |r.docs| <= |st.docs| + |files|
      && forall n :: n in st.embeddings ==> n in r.embeddings && r.embeddings[n] == st.embeddings[n]
    decreases |files|
  {
    if files != [] {
      var prefix := files[..|files| - 1];
      UploadAllKeeps(st, prefix, process);
      UploadStepKeeps(UploadAll(st, prefix, process), files[|files| - 1], process);
    }
  }

  /** A file whose processing fails, or that is rejected by the filter,
      adds nothing. */
  lemma RejectedAddsNothing(st: Uploaded, f: Upload,
                            process: Upload -> Result<(string, seq<Embedding>), string>)
    requires f.name in Names(st.docs) || FileExtension(f.name) !in SupportedExtensions
             || |f.data| > MaxUploadSize || process(f).Failure?
    ensures UploadStep(st, f, process) == st
  {
  }

  /** An accepted file is stored last, with its preview and embeddings. */
  lemma AcceptedIsStored(st: Uploaded, f: Upload,
                         process: Upload -> Result<(string, seq<Embedding>), string>)
    requires f.name !in Names(st.docs) && FileExtension(f.name) in SupportedExtensions
    requires |f.data| <= MaxUploadSize && process(f).Success?
    ensures var r := UploadStep(st, f, process);
      && |r.docs| == |st.docs| + 1
      && r.docs[|st.docs|] == Document(f.name, FileExtension(f.name), |f.data|, Preview(process(f).value.0))
      && r.embeddings == st.embeddings[f.name := process(f).value.1]
  {
  }

  /** The loop of `process_uploaded_documents` over one batch, on the
      document list and embedding map it extends. */
  method UploadBatch(docs0: seq<Document>, embeddings0: map<string, seq<Embedding>>, files: seq<Upload>,
                     process: Upload -> Result<(string, seq<Embedding>), string>)
    returns (docs: seq<Document>, embeddings: map<string, seq<Embedding>>)
    ensures Uploaded(docs, embeddings) == UploadAll(Uploaded(docs0, embeddings0), files, process)
  {
    docs, embeddings := docs0, embeddings0;
    var i := 0;
    while i < |files|
      invariant 0 <= i <= |files|
      invariant Uploaded(docs, embeddings) == UploadAll(Uploaded(docs0, embeddings0), files[..i], process)
    {
      var f := files[i];
      ghost var next := UploadStep(Uploaded(docs, embeddings), f, process);
      assert UploadAll(Uploaded(docs0, embeddings0), files[..i + 1], process) == next by {
        assert files[..i + 1][..i] == files[..i];
      }
      if f.name in Names(docs) {
        i := i + 1;
        continue;
      }
      var ext := FileExtension(f.name);
      if ext !in SupportedExtensions {
        i := i + 1;
        continue;
      }
      if |f.data| > MaxUploadSize {
        i := i + 1;
        continue;
      }
      match process(f) {
        case Failure(_) =>
        case Success(result) =>
          var text := result.0;
          docs := docs + [Document(f.name, ext, |f.data|, Preview(text))];
          embeddings := embeddings[f.name := result.1];
      }
      i := i + 1;
    }
    assert files[..|files|] == files;
  }

  // ---------------------------------------------------------------------
  // Requests to the generators

  /** The arguments `generate_chapter_detail` passes to `generate_chapter_content`. */
  datatype ChapterRequest = ChapterRequest(
    courseTitle: string, courseDescription: string,
    moduleTitle: string, chapterTitle: string, chapterDescription: string, keyPoints: seq<string>,
    documentText: string, documentEmbeddings: seq<Embedding>)

  /** The arguments `generate_module_quiz` passes to `generate_quiz`. */
  datatype QuizRequest = QuizRequest(
    courseTitle: string, courseModule: CourseModule,
    numQuestions: int, difficulty: string, questionTypes: seq<string>)

  /** The previews of all documents joined by blank lines. */
  function DocumentText(docs: seq<Document>): string {
    Join(seq(|docs|, i requires 0 <= i < |docs| => docs[i].preview), "\n\n")
  }

  /** The embeddings of the first stored document. Names are inserted into
      the embedding map in document order and never removed, so the first
      value of the map is the one stored under the first document's name. */
  function FirstEmbeddings(docs: seq<Document>, embeddings: map<string, seq<Embedding>>): seq<Embedding> {
    if docs != [] && docs[0].name in embeddings then embeddings[docs[0].name] else []
  }

  // ---------------------------------------------------------------------
  // List editing with Python index semantics

  /** Python's index rule for `pop(i)` and `xs[i] = v`: a negative index
      counts from the end; `None` stands for IndexError. */
  function PyIndex(i: int, n: nat): (k: Option<nat>)
    ensures k.Some? <==> -(n as int) <= i < n
    ensures k.Some? ==> k.value < n && (if i >= 0 then k.value == i else k.value == i + n)
  {
    if 0 <= i < n then Some(i) else if -(n as int) <= i < 0 then Some(i + n) else None
  }

  /** `xs.pop(k)` on a valid position: later elements move down by one. */
  function RemoveAt(xs: seq<string>, k: nat): (r: seq<string>)
    requires k < |xs|
    ensures |r| == |xs| - 1
    ensures forall j :: 0 <= j < k ==> r[j] == xs[j]
    ensures forall j :: k <= j < |r| ==> r[j] == xs[j + 1]
  {
    xs[..k] + xs[k + 1..]
  }

  /** Exactly the element at `k` is removed. */
  lemma RemoveAtMultiset(xs: seq<string>, k: nat)
    requires k < |xs|
    ensures multiset(RemoveAt(xs, k)) + multiset{xs[k]} == multiset(xs)
  {
    assert xs == xs[..k] + [xs[k]] + xs[k + 1..];
  }

  // ---------------------------------------------------------------------
  // The session

  datatype SessionState = SessionState(
    courseTitle: string, courseDescription: string,
    learningObjectives: seq<string>, prerequisites: seq<string>, learningMethods: seq<string>,
    uploadedDocuments: seq<Document>, documentEmbeddings: map<string, seq<Embedding>>,
    courseStructure: CourseStructure,
    chapterContents: map<string, Json>, quizzes: map<string, Json>,
    chapterRequests: seq<ChapterRequest>, quizRequests: seq<QuizRequest>)

  /** Documents satisfy their invariant, and each cache holds exactly as many
      entries as requests were made to its generator: no key was ever
      generated twice. */
  ghost predicate Invariant(st: SessionState) {
    && DocsValid(st.uploadedDocuments, st.documentEmbeddings)
    && |st.chapterRequests| == |st.chapterContents|
    && |st.quizRequests| == |st.quizzes|
  }

  lemma MapInsertSize<V>(m: map<string, V>, k: string, v: V)
    requires k !in m
    ensures |m[k := v]| == |m| + 1
  {
    assert m[k := v].Keys == m.Keys + {k};
  }

  /** Filling a fresh chapter key while logging its request keeps the invariant. */
  lemma InvariantAddChapter(st: SessionState, key: string, v: Json, request: ChapterRequest)
    requires Invariant(st) && key !in st.chapterContents
    ensures Invariant(st.(chapterContents := st.chapterContents[key := v],
                          chapterRequests := st.chapterRequests + [request]))
  {
    MapInsertSize(st.chapterContents, key, v);
  }

  /** Filling a fresh quiz key while logging its request keeps the invariant. */
  lemma InvariantAddQuiz(st: SessionState, key: string, v: Json, request: QuizRequest)
    requires Invariant(st) && key !in st.quizzes
    ensures Invariant(st.(quizzes := st.quizzes[key := v], quizRequests := st.quizRequests + [request]))
  {
    MapInsertSize(st.quizzes, key, v);
  }

  class Session {
    var courseTitle: string
    var courseDescription: string
    var learningObjectives: seq<string>
    var prerequisites: seq<string>
    var learningMethods: seq<string>
    var uploadedDocuments: seq<Document>
    var documentEmbeddings: map<string, seq<Embedding>>
    var courseStructure: CourseStructure
    var chapterContents: map<string, Json>
    var quizzes: map<string, Json>
    ghost var chapterRequests: seq<ChapterRequest>
    ghost var quizRequests: seq<QuizRequest>

    ghost function State(): SessionState
      reads this
    {
      SessionState(courseTitle, courseDescription, learningObjectives, prerequisites, learningMethods,
                   uploadedDocuments, documentEmbeddings, courseStructure, chapterContents, quizzes,
                   chapterRequests, quizRequests)
    }

    ghost predicate Valid()
      reads this
    {
      Invariant(State())
    }

    /** The initial session state of App.py; the title and description are
        what the user typed. */
    constructor (title: string, description: string)
      ensures State() == SessionState(title, description, [], [], [], [], map[], WithModules([]),
                                      map[], map[], [], [])
      ensures Valid()
    {
      courseTitle := title;
      courseDescription := description;
      learningObjectives := [];
      prerequisites := [];
      learningMethods := [];
      uploadedDocuments := [];
      documentEmbeddings := map[];
      courseStructure := WithModules([]);
      chapterContents := map[];
      quizzes := map[];
      chapterRequests := [];
      quizRequests := [];
    }

    // -------------------------------------------------------------------
    // List editors

    /** `add_learning_method`. */
    method AddLearningMethod(item: string)
      modifies this
      ensures State() == old(State()).(learningMethods := old(learningMethods) + [item])
      ensures Valid() <==> old(Valid())
    {
      learningMethods := learningMethods + [item];
    }

    /** `remove_learning_method`: a no-op on an empty list; otherwise
      `pop(index)`, with `raised` for IndexError. */
    method RemoveLearningMethod(index: int) returns (raised: bool)
      modifies this
      ensures old(learningMethods) == [] ==> !raised
      ensures raised <==> old(learningMethods) != [] && PyIndex(index, |old(learningMethods)|).None?
      ensures raised || old(learningMethods) == [] ==> State() == old(State())
      ensures !raised && old(learningMethods) != [] ==>
        State() == old(State()).(learningMethods :=
          RemoveAt(old(learningMethods), PyIndex(index, |old(learningMethods)|).value))
      ensures Valid() <==> old(Valid())
    {
      raised := false;
      if |learningMethods| > 0 {
        var k := PyIndex(index, |learningMethods|);
        if k.None? {
          return true;
        }
        learningMethods := RemoveAt(learningMethods, k.value);
      }
    }

    /** `update_learning_method`: `methods[index] = item`, with `raised` for
        IndexError. */
    method UpdateLearningMethod(index: int, item: string) returns (raised: bool)
      modifies this
      ensures raised <==> PyIndex(index, |old(learningMethods)|).None?
      ensures raised ==> State() == old(State())
      ensures !raised ==>
        State() == old(State()).(learningMethods :=
          old(learningMethods)[PyIndex(index, |old(learningMethods)|).value := item])
      ensures Valid() <==> old(Valid())
    {
      var k := PyIndex(index, |learningMethods|);
      if k.None? {
        return true;
      }
      learningMethods := learningMethods[k.value := item];
      raised := false;
    }

    /** `add_learning_objective`. */
    method AddLearningObjective(item: string)
      modifies this
      ensures State() == old(State()).(learningObjectives := old(learningObjectives) + [item])
      ensures Valid() <==> old(Valid())
    {
      learningObjectives := learningObjectives + [item];
    }

    /** `remove_learning_objective`: `pop(index)`; an empty list raises. */
    method RemoveLearningObjective(index: int) returns (raised: bool)
      modifies this
      ensures raised <==> PyIndex(index, |old(learningObjectives)|).None?
      ensures raised ==> State() == old(State())
      ensures !raised ==>
        State() == old(State()).(learningObjectives :=
          RemoveAt(old(learningObjectives), PyIndex(index, |old(learningObjectives)|).value))
      ensures Valid() <==> old(Valid())
    {
      var k := PyIndex(index, |learningObjectives|);
      if k.None? {
        return true;
      }
      learningObjectives := RemoveAt(learningObjectives, k.value);
      raised := false;
    }

    /** `add_prerequisite`. */
    method AddPrerequisite(item: string)
      modifies this
      ensures State() == old(State()).(prerequisites := old(prerequisites) + [item])
      ensures Valid() <==> old(Valid())
    {
      prerequisites := prerequisites + [item];
    }

    /** `remove_prerequisite`: `pop(index)`; an empty list raises. */
    method RemovePrerequisite(index: int) returns (raised: bool)
      modifies this
      ensures raised <==> PyIndex(index, |old(prerequisites)|).None?
      ensures raised ==> State() == old(State())
      ensures !raised ==>
        State() == old(State()).(prerequisites :=
          RemoveAt(old(prerequisites), PyIndex(index, |old(prerequisites)|).value))
      ensures Valid() <==> old(Valid())
    {
      var k := PyIndex(index, |prerequisites|);
      if k.None? {
        return true;
      }
      prerequisites := RemoveAt(prerequisites, k.value);
      raised := false;
    }

    // -------------------------------------------------------------------
    // Document upload

    /** `process_uploaded_documents`: nothing happens for an empty batch or
        a missing OpenAI key; otherwise each file goes through the upload
        filter in order, against the documents stored so far. */
    method ProcessUploadedDocuments(files: seq<Upload>, envKey: Option<string>,
                                    process: Upload -> Result<(string, seq<Embedding>), string>)
      requires Valid()
      modifies this
      ensures Valid()
      ensures files == [] || !Given(envKey) ==> State() == old(State())
      ensures files != [] && Given(envKey) ==>
        var r := UploadAll(Uploaded(old(uploadedDocuments), old(documentEmbeddings)), files, process);
        State() == old(State()).(uploadedDocuments := r.docs, documentEmbeddings := r.embeddings)
    {
      if files == [] || !Given(envKey) {
        return;
      }
      ghost var start := Uploaded(uploadedDocuments, documentEmbeddings);
      var docs, embeddings := UploadBatch(uploadedDocuments, documentEmbeddings, files, process);
      UploadAllKeeps(start, files, process);
      ghost var before := State();
      uploadedDocuments := docs;
      documentEmbeddings := embeddings;
      assert State() == before.(uploadedDocuments := docs, documentEmbeddings := embeddings);
    }

    // -------------------------------------------------------------------
    // Keyed caches

    /** `generate_chapter_detail`: when the chapter is found and its key is
        not cached yet, exactly one request is made and its answer, even an
        `{"error": …}` mapping, is stored under the key; in every other case
        nothing changes and no request is made. */
    method GenerateChapterDetail(moduleNumber: int, chapterNumber: ChapterNumber,
                                 generate: ChapterRequest -> Json)
      requires Valid()
      modifies this
      ensures Valid()
      ensures var found := ChapterLookup(old(courseStructure), moduleNumber, chapterNumber);
        found.None? || ChapterKey(moduleNumber, chapterNumber) in old(chapterContents) ==>
          State() == old(State())
      ensures var found := ChapterLookup(old(courseStructure), moduleNumber, chapterNumber);
        var key := ChapterKey(moduleNumber, chapterNumber);
        found.Some? && key !in old(chapterContents) ==>
          var request := ChapterRequest(
            old(courseTitle), old(courseDescription),
            found.value.0.title, found.value.1.title, found.value.1.description, found.value.1.keyPoints,
            DocumentText(old(uploadedDocuments)),
            FirstEmbeddings(old(uploadedDocuments), old(documentEmbeddings)));
          State() == old(State()).(chapterContents := old(chapterContents)[key := generate(request)],
                                   chapterRequests := old(chapterRequests) + [request])
    {
      var found := LocateChapter(courseStructure, moduleNumber, chapterNumber);
      if found.None? {
        return;
      }
      var (selected, chapter) := found.value;
      var key := ChapterKey(moduleNumber, chapterNumber);
      if key in chapterContents {
        return;
      }
      var documentText := "";
      var embeddings: seq<Embedding> := [];
      if uploadedDocuments != [] {
        documentText := DocumentText(uploadedDocuments);
        if uploadedDocuments[0].name in documentEmbeddings {
          embeddings := documentEmbeddings[uploadedDocuments[0].name];
        }
      }
      assert documentText == DocumentText(uploadedDocuments);
      assert embeddings == FirstEmbeddings(uploadedDocuments, documentEmbeddings);
      var request := ChapterRequest(courseTitle, courseDescription, selected.title, chapter.title,
                                    chapter.description, chapter.keyPoints, documentText, embeddings);
      ghost var before := State();
      InvariantAddChapter(before, key, generate(request), request);
      chapterContents := chapterContents[key := generate(request)];
      chapterRequests := chapterRequests + [request];
      assert State() == before.(chapterContents := before.chapterContents[key := generate(request)],
                                chapterRequests := before.chapterRequests + [request]);
    }

    /** `generate_module_quiz`: the quiz key of a found module is filled at
        most once; a structure without "modules", an unknown module or a key
        already cached changes nothing and makes no request. */
    method GenerateModuleQuiz(moduleNumber: int, numQuestions: int, difficulty: string,
                              questionTypes: seq<string>, generate: QuizRequest -> Json)
      requires Valid()
      modifies this
      ensures Valid()
      ensures old(courseStructure).WithoutModules? ==> State() == old(State())
      ensures old(courseStructure).WithModules? ==>
        var modules := old(courseStructure).modules;
        var mi := FirstIndex(modules, ModuleNumber, moduleNumber, 0);
        var key := QuizKey(moduleNumber);
        if mi < 0 || key in old(quizzes) then State() == old(State())
        else
          var request := QuizRequest(old(courseTitle), modules[mi], numQuestions, difficulty, questionTypes);
          State() == old(State()).(quizzes := old(quizzes)[key := generate(request)],
                                   quizRequests := old(quizRequests) + [request])
    {
      if courseStructure.WithoutModules? {
        return;
      }
      var modules := courseStructure.modules;
      var mi := FindFirst(modules, ModuleNumber, moduleNumber);
      if mi < 0 {
        return;
      }
      var selected := modules[mi];
      var key := QuizKey(moduleNumber);
      if key in quizzes {
        return;
      }
      var request := QuizRequest(courseTitle, selected, numQuestions, difficulty, questionTypes);
      ghost var before := State();
      InvariantAddQuiz(before, key, generate(request), request);
      quizzes := quizzes[key := generate(request)];
      quizRequests := quizRequests + [request];
      assert State() == before.(quizzes := before.quizzes[key := generate(request)],
                                quizRequests := before.quizRequests + [request]);
    }
  }
}
