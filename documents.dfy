/** Document intake in ai_helpers.py: the file-extension dispatch of
    `process_document`, the embedding loop of `create_embeddings`, and
    `process_document` itself. Text extraction, the tokenizer and the
    embedding service are parameters. */
module Documents {
  import opened Wrappers
  import opened PyStr
  import opened Credentials
  import opened Chunking

  // ---------------------------------------------------------------------
  // os.path.splitext

  /** Python `s.rfind(c)`: the last index holding `c`, or -1. */
  function LastIndexOf(s: string, c: char): (r: int)
    ensures -1 <= r < |s|
    decreases |s|
  {
    if s == [] then -1
    else if s[|s| - 1] == c then |s| - 1
    else LastIndexOf(s[..|s| - 1], c)
  }

  lemma {:induction false} LastIndexOfSpec(s: string, c: char)
    ensures var r := LastIndexOf(s, c);
      && (r >= 0 ==> s[r] == c)
      && (forall k :: r < k < |s| ==> s[k] != c)
    decreases |s|
  {
    if s != [] && s[|s| - 1] != c {
      LastIndexOfSpec(s[..|s| - 1], c);
    }
  }

  /** The last occurrence is the one with no occurrence after it. */
  lemma LastIndexOfAt(s: string, c: char, i: int)
    requires 0 <= i < |s| && s[i] == c
    requires forall k :: i < k < |s| ==> s[k] != c
    ensures LastIndexOf(s, c) == i
  {
    LastIndexOfSpec(s, c);
  }

  lemma LastIndexOfAbsent(s: string, c: char)
    requires c !in s
    ensures LastIndexOf(s, c) == -1
  {
    LastIndexOfSpec(s, c);
  }

  /** Some character strictly between `lo` and `hi` is not a dot. */
  predicate HasNonDotBetween(p: string, lo: int, hi: int)
    requires -1 <= lo && hi <= |p|
  {
    exists k :: lo < k < hi && p[k] != '.'
  }

  /** `os.path.splitext(p)[1]` on POSIX: from the last dot of the final path
      component, unless that component has only dots before it. */
  function Extension(p: string): (e: string)
    ensures |e| <= |p|
  {
    var sep := LastIndexOf(p, '/');
    var dot := LastIndexOf(p, '.');
    if dot > sep && HasNonDotBetween(p, sep, dot) then p[dot..] else ""
  }

  /** An extension is a suffix of the path that starts with its only dot
      and contains no separator. */
  lemma ExtensionSpec(p: string)
    ensures var e := Extension(p);
      e == "" || (e[0] == '.' && e == p[|p| - |e|..] && '.' !in e[1..] && '/' !in e)
  {
    LastIndexOfSpec(p, '/');
    LastIndexOfSpec(p, '.');
    var e := Extension(p);
    if e != "" {
      var dot := LastIndexOf(p, '.');
      assert e == p[dot..];
      assert forall k :: 0 <= k < |e| ==> e[k] == p[dot + k];
    }
  }

  /** A file name without directories, with at least one non-dot character
      before its last dot, has everything from that dot as its extension. */
  lemma ExtensionOfName(stem: string, x: string)
    requires '/' !in stem && exists k :: 0 <= k < |stem| && stem[k] != '.'
    requires '.' !in x && '/' !in x
    ensures Extension(stem + "." + x) == "." + x
  {
    var p := stem + "." + x;
    assert forall k :: |stem| < k < |p| ==> p[k] == x[k - |stem| - 1];
    LastIndexOfAt(p, '.', |stem|);
    assert '/' !in p by {
      assert forall k :: 0 <= k < |p| ==> p[k] == (if k < |stem| then stem[k] else if k == |stem| then '.' else x[k - |stem| - 1]);
    }
    LastIndexOfAbsent(p, '/');
    var k :| 0 <= k < |stem| && stem[k] != '.';
    assert p[k] == stem[k];
    assert HasNonDotBetween(p, -1, |stem|);
    assert p[|stem|..] == "." + x;
  }

  /** Leading dots of a name do not start an extension (".bashrc"). */
  lemma LeadingDotsNoExtension(dots: string, x: string)
    requires dots != [] && forall k :: 0 <= k < |dots| ==> dots[k] == '.'
    requires '.' !in x && '/' !in x
    ensures Extension(dots + x) == ""
  {
    var p := dots + x;
    assert forall k :: |dots| <= k < |p| ==> p[k] == x[k - |dots|];
    LastIndexOfAt(p, '.', |dots| - 1);
    assert '/' !in p by {
      assert forall k :: 0 <= k < |p| ==> p[k] == (if k < |dots| then '.' else x[k - |dots|]);
    }
    LastIndexOfAbsent(p, '/');
    assert !HasNonDotBetween(p, -1, |dots| - 1);
  }

  /** A name without a dot has no extension. */
  lemma NoDotNoExtension(p: string)
    requires '.' !in p
    ensures Extension(p) == ""
  {
    LastIndexOfAbsent(p, '.');
  }

  /** `os.path.splitext(filename)[1].lower()`. */
  function FileExtension(filename: string): (e: string)
    ensures |e| == |Extension(filename)|
  {
    LowerAscii(Extension(filename))
  }

  // ---------------------------------------------------------------------
  // Extension dispatch

  datatype DocKind = Pdf | Docx | Pptx | Txt

  /** The extensions accepted by `process_document` and by the upload filter. */
  const SupportedExtensions: seq<string> := [".pdf", ".docx", ".pptx", ".txt"]

  function KindExtension(k: DocKind): string {
    match k
      case Pdf => ".pdf"
      case Docx => ".docx"
      case Pptx => ".pptx"
      case Txt => ".txt"
  }

  /** The `if/elif` chain of `process_document` as a choice of extractor. */
  function KindOf(ext: string): (k: Option<DocKind>)
    ensures k.Some? <==> ext in SupportedExtensions
    ensures k.Some? ==> KindExtension(k.value) == ext
  {
    if ext == ".pdf" then Some(Pdf)
    else if ext == ".docx" then Some(Docx)
    else if ext == ".pptx" then Some(Pptx)
    else if ext == ".txt" then Some(Txt)
    else None
  }

  /** Each kind is selected by exactly its own extension. */
  lemma KindOfExtension(k: DocKind)
    ensures KindOf(KindExtension(k)) == Some(k)
  {
  }

  function UnsupportedTypeMessage(ext: string): string {
    "Type de fichier non pris en charge: " + ext
  }

  // ---------------------------------------------------------------------
  // Embeddings

  type Embedding = seq<real>

  const EmbeddingDimension: nat := 1536

  /** The vector stored for a chunk whose embedding call failed. */
  const ZeroEmbedding: Embedding := seq(EmbeddingDimension, _ => 0.0)

  /** The embedding kept for one chunk: the service's vector, or the zero
      vector when the call raised (`None`). */
  function EmbeddingOf(embed: string -> Option<Embedding>, chunk: string): (v: Embedding)
    ensures embed(chunk).Some? ==> v == embed(chunk).value
    ensures embed(chunk).None? ==> |v| == EmbeddingDimension && forall i :: 0 <= i < |v| ==> v[i] == 0.0
  {
    match embed(chunk)
      case Some(v) => v
      case None => ZeroEmbedding
  }

  /** One embedding per chunk, in chunk order. */
  function EmbedAll(chunks: seq<string>, embed: string -> Option<Embedding>): (es: seq<Embedding>)
    ensures |es| == |chunks|
    ensures forall i :: 0 <= i < |chunks| ==> es[i] == EmbeddingOf(embed, chunks[i])
  {
    seq(|chunks|, i requires 0 <= i < |chunks| => EmbeddingOf(embed, chunks[i]))
  }

  /** When the service only answers with vectors of the standard dimension,
      every stored embedding has that dimension. */
  lemma EmbedAllDimension(chunks: seq<string>, embed: string -> Option<Embedding>)
    requires forall c :: embed(c).Some? ==> |embed(c).value| == EmbeddingDimension
    ensures forall i :: 0 <= i < |chunks| ==> |EmbedAll(chunks, embed)[i]| == EmbeddingDimension
  {
  }

  /** `create_embeddings`: a missing key raises ValueError (`Failure`);
      otherwise one entry per chunk, with a zero vector for each failed call. */
  method CreateEmbeddings(chunks: seq<string>, explicitKey: Option<string>, envKey: Option<string>,
                          embed: string -> Option<Embedding>) returns (r: Result<seq<Embedding>, string>)
    ensures !Given(explicitKey) && !Given(envKey) ==> r == Failure(OpenAIKeyNotFound)
    ensures Given(ResolveKey(explicitKey, envKey)) ==> r == Success(EmbedAll(chunks, embed))
  {
    if ResolveKey(explicitKey, envKey).None? {
      return Failure(OpenAIKeyNotFound);
    }
    var embeddings: seq<Embedding> := [];
    var i := 0;
    while i < |chunks|
      invariant 0 <= i <= |chunks|
      invariant |embeddings| == i
      invariant forall j :: 0 <= j < i ==> embeddings[j] == EmbeddingOf(embed, chunks[j])
    {
      match embed(chunks[i]) {
        case Some(v) =>
          embeddings := embeddings + [v];
        case None =>
          embeddings := embeddings + [ZeroEmbedding];
      }
      i := i + 1;
    }
    assert embeddings == EmbedAll(chunks, embed);
    r := Success(embeddings);
  }

  // ---------------------------------------------------------------------
  // process_document

  /** The chunks `split_text_into_chunks` produces for `text` with its
      default budget: the greedy grouping with a tokenizer, the fixed slices
      without one. */
  ghost predicate ChunksOf(text: string, tokenizer: Option<string -> nat>, chunks: seq<string>) {
    match tokenizer
      case Some(count) => chunks == GreedyChunks(Split(text, '\n'), count, DefaultMaxTokens)
      case None => FixedSlices(text, chunks)
  }

  /** `process_document`: an unsupported extension yields the message and no
      embeddings; otherwise the extracted text is chunked and embedded, and a
      missing key makes the embedding step raise (`Failure`). `extract` is
      the extractor of each kind applied to the file. */
  method ProcessDocument(filename: string, extract: DocKind -> string, tokenizer: Option<string -> nat>,
                         explicitKey: Option<string>, envKey: Option<string>,
                         embed: string -> Option<Embedding>)
    returns (r: Result<(string, seq<Embedding>), string>)
    requires tokenizer.Some? ==> tokenizer.value("") == 0
    ensures KindOf(FileExtension(filename)).None? ==>
      r == Success((UnsupportedTypeMessage(FileExtension(filename)), []))
    ensures KindOf(FileExtension(filename)).Some? && !Given(explicitKey) && !Given(envKey) ==>
      r == Failure(OpenAIKeyNotFound)
    ensures KindOf(FileExtension(filename)).Some? && Given(ResolveKey(explicitKey, envKey)) ==>
      && r.Success?
      && r.value.0 == extract(KindOf(FileExtension(filename)).value)
      && exists chunks :: ChunksOf(r.value.0, tokenizer, chunks) && r.value.1 == EmbedAll(chunks, embed)
  {
    var ext := FileExtension(filename);
    match KindOf(ext) {
      case None =>
        return Success((UnsupportedTypeMessage(ext), []));
      case Some(kind) =>
        var text := extract(kind);
        var chunks := SplitTextIntoChunks(text, tokenizer, DefaultMaxTokens);
        assert ChunksOf(text, tokenizer, chunks);
        var embeddings := CreateEmbeddings(chunks, explicitKey, envKey, embed);
        match embeddings {
          case Failure(e) =>
            r := Failure(e);
          case Success(es) =>
            r := Success((text, es));
        }
    }
  }
}
