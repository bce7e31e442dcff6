# ZEY LMS content assistant: a Dafny model of its deterministic core

ZEY LMS is a Streamlit application that helps a teacher build a course. The
teacher types a title and a description. Remote language models then write
the objectives, the prerequisites, the learning methods, a structure of
modules and chapters, chapter contents, quizzes and a podcast. Uploaded
documents are chunked and embedded to serve as context.

This project models the logic around those remote calls. Every remote
service is replaced by a parameter (an oracle) that may answer or fail. The
model covers two source files:

- `ai_helpers.py`:
  - the list parser shared by the three list generators;
  - the paragraph chunker and its fixed-slice fallback;
  - the embedding loop and `process_document`'s extension dispatch;
  - where a description request is sent;
  - API-key precedence, the error values the helpers return for each outcome;
  - the truncation of text sent to speech synthesis.
- `App.py`:
  - the session object (the `st.session_state` fields the callbacks update) as a class;
  - the list editors;
  - the upload batch with its filter;
  - the chapter and quiz caches, each filled at most once per key;
  - the module label shown in the quiz tab and parsed back to a number.

Modules:

| file | module | models |
|---|---|---|
| wrappers.dfy | Wrappers | `Option` and `Result` |
| pystr.dfy | PyStr | the Python `str` operations the code relies on: `strip`, `lstrip(chars)`, `split`, `join`, `replace(p, "")`, ASCII `lower`, `str(int)` and `int(str)` |
| credentials.dfy | Credentials | `api_key or os.environ.get(...)`, the missing-key and failure messages |
| reply_parsing.dfy | ReplyParsing | the numbered/bulleted list parser |
| chunking.dfy | Chunking | `split_text_into_chunks` |
| documents.dfy | Documents | `os.path.splitext(...)[1].lower()`, extension dispatch, `create_embeddings`, `process_document` |
| generation.dfy | Generation | provider dispatch, list generators, structured (JSON) generators, `generate_podcast_audio` |
| session.dfy | Session | the session class and its callbacks |
| module_labels.dfy | ModuleLabels | the "Module {n}: {title}" label and its parse |

The remote replies are parameters:

- A text reply is `Result<string, string>`. `Failure(e)` carries the text of the exception.
- A parsed JSON reply is `Result<Json, string>`.
- The tokenizer is `Option<string -> nat>`. `None` stands for any exception raised in the `try` block of the chunker: tiktoken could not be set up, or encoding a paragraph failed. Either selects the fallback path.
- The embedding service is `string -> Option<Embedding>`.
- Each content generator the session calls is `ChapterRequest -> Json` or `QuizRequest -> Json`.

The session class keeps two ghost logs of the requests it sent to these generators. Its invariant ties the size of each cache to the size of its log. With the ensures of `GenerateChapterDetail` and `GenerateModuleQuiz` (keys are never removed, and every request adds a fresh key), this gives at most one request per key.

## Model

| member | source | states |
|---|---|---|
| Credentials.ResolveKey | ai_helpers.py:28-31 | the explicit key wins when non-empty, the environment variable is the fallback, and an error results exactly when neither is a non-empty string |
| ReplyParsing.ExtractItems | ai_helpers.py:221-227 | the loop over the lines returns exactly the items of the kept lines, in line order (`Extract`) |
| ReplyParsing.ParseReplyList | ai_helpers.py:221-231 | the parser returns the extracted items, or the whole reply when none was extracted |
| ReplyParsing.ParsedItems | ai_helpers.py:229-231 | the parsed list is never empty |
| ReplyParsing.ExtractCorrespondence | ai_helpers.py:222-227 | items correspond one-to-one and in order to the lines that, stripped, start with a digit or "- "; each item is its stripped line with the leading marker characters removed |
| ReplyParsing.ExtractLength | ai_helpers.py:222-227 | there are never more items than lines |
| ReplyParsing.ExtractEmptyIff | ai_helpers.py:224 | no item is extracted exactly when no line qualifies |
| ReplyParsing.WholeReplyWhenNoListLine | ai_helpers.py:229-231 | without a qualifying line the result is exactly `[reply]`, otherwise it is the non-empty extracted list |
| ReplyParsing.ItemsHaveNoMarker | ai_helpers.py:226 | no item starts with a character from "0123456789.- " |
| ReplyParsing.ItemAfterMarker | ai_helpers.py:226 | `lstrip` removes a three-character marker and nothing of the item after it |
| ReplyParsing.MarkedLineItems | ai_helpers.py:223-227 | a line made of a marker such as "1. " or "-  " and a plain item contributes exactly that item |
| ReplyParsing.MarkedTwoLineReply | ai_helpers.py:221-227 | a reply such as "1. Foo\n2. Bar" parses to ["Foo", "Bar"] |
| ReplyParsing.SingleLineReply | ai_helpers.py:229-231 | a one-line reply that is not a list line is returned as the only item |
| PyStr.StripSpec | ai_helpers.py:223 | `strip` removes exactly the leading and trailing whitespace and keeps the middle |
| PyStr.LStripCharsSpec | ai_helpers.py:226 | `lstrip(chars)` removes the longest prefix drawn from `chars` |
| PyStr.JoinSplit | ai_helpers.py:501 | joining the `split` pieces with the separator gives back the text |
| PyStr.SplitAtFirst | App.py:697 | `split` cuts at the first separator, so the piece before it is the separator-free head |
| PyStr.ParseIntToString | App.py:697 | `int(str(n)) == n` for every integer, negative ones included |
| Chunking.GroupParagraphs | ai_helpers.py:503-529 | the greedy loop returns `GreedyChunks` of the paragraphs, no chunk is empty, and the chunks are runs as `ChunkRuns` describes |
| Chunking.GreedyChunksAreRuns | ai_helpers.py:507-527 | each chunk is the "\n"-join of a contiguous run of paragraphs, in order. Only empty paragraphs fall outside the runs. A run over the budget is one paragraph. Each closed run was closed by a paragraph that did not fit. No chunk is empty |
| Chunking.GreedyProgress | ai_helpers.py:507-523 | after any number of paragraphs the loop variables describe the runs closed so far and the open one |
| Chunking.GreedyRoundTrip | ai_helpers.py:501-527 | when no paragraph is empty, joining the chunks with "\n" reproduces the text |
| Chunking.GreedyChunksEmptyIff | ai_helpers.py:513-514 | there are no chunks exactly when every paragraph is empty |
| Chunking.FallbackSlices | ai_helpers.py:533-537 | the slices concatenate to the text; each has 1 to 4000 characters and all but the last have exactly 4000; there are none exactly when the text is empty |
| Chunking.SplitTextIntoChunks | ai_helpers.py:485-537 | with a tokenizer the result is the greedy chunks of the "\n"-split text; without one it is the fixed slices; no chunk is ever empty |
| Documents.LastIndexOfSpec | ai_helpers.py:589 | `rfind` gives an index holding the character with none after it, or -1 |
| Documents.ExtensionSpec | ai_helpers.py:589 | an extension is empty, or a suffix of the path that starts with its only dot and holds no "/" |
| Documents.ExtensionOfName | ai_helpers.py:589 | a base name with a non-dot character before its last dot has everything from that dot as its extension |
| Documents.LeadingDotsNoExtension | ai_helpers.py:589 | leading dots of a name (".bashrc") do not start an extension |
| Documents.NoDotNoExtension | ai_helpers.py:589 | a name without a dot has no extension |
| Documents.FileExtension | ai_helpers.py:589 | the lowercased extension has the length of the extension |
| Documents.KindOf | ai_helpers.py:592-601 | a document kind is chosen exactly for ".pdf", ".docx", ".pptx" and ".txt", and the kind chosen is the one of that extension |
| Documents.KindOfExtension | ai_helpers.py:592-599 | each kind is selected by its own extension |
| Documents.EmbeddingOf | ai_helpers.py:562-572 | a chunk gets the service's vector, or 1536 zeros when the call failed |
| Documents.EmbedAll | ai_helpers.py:561-574 | one embedding per chunk, in chunk order |
| Documents.EmbedAllDimension | ai_helpers.py:567-572 | when the service only answers 1536-dimensional vectors, every stored embedding has 1536 entries |
| Documents.CreateEmbeddings | ai_helpers.py:539-574 | a missing key fails with the not-found message; otherwise the loop returns one embedding per chunk, in order |
| Documents.ProcessDocument | ai_helpers.py:576-609 | an unsupported extension yields its message and no embeddings. A missing key fails. Otherwise the text is the extractor's output for that kind, and the embeddings are those of its chunks |
| Generation.RouteDescription | ai_helpers.py:154-162 | an empty title or description stops before the provider is looked at; otherwise the lowercased provider "openai" or "anthropic" selects that backend and any other provider is unsupported (all four as if-and-only-if) |
| Generation.EnhanceViaOpenAI | ai_helpers.py:15-84 | missing key, stripped reply, or the OpenAI failure message |
| Generation.EnhanceViaAnthropic | ai_helpers.py:87-139 | missing key, the reply as it came, or the Anthropic failure message |
| Generation.EnhanceCourseDescription | ai_helpers.py:142-162 | each route returns its message or calls the selected backend with the environment key only |
| Generation.OnlySelectedBackendMatters | ai_helpers.py:154-162 | the result depends on no backend's reply for missing input or an unsupported provider, and on the selected backend's reply only otherwise |
| Generation.GenerateItemList | ai_helpers.py:166-236 | the list is never empty: the missing-key message, the failure message, or the parse of the stripped reply |
| Generation.ErrorObject | ai_helpers.py:641 | the error value is a mapping with the single key "error" |
| Generation.StructuredReply | ai_helpers.py:611-715 | missing key gives `{"error": not-found}` without the "Erreur: " prefix, a parsed reply is returned as is, and a failure gives `{"error": failure}` |
| Generation.SpeechInput | ai_helpers.py:1088-1090 | the text sent is a prefix of the script of at most 4096 characters, the whole script when it fits and exactly 4096 characters otherwise |
| Generation.SpeechInputIdempotent | ai_helpers.py:1088-1090 | truncating twice is truncating once |
| Generation.SpeechInputIgnoresTail | ai_helpers.py:1088-1090 | characters after the first 4096 never reach the speech service |
| Generation.GeneratePodcastAudio | ai_helpers.py:1061-1113 | missing key gives the not-found error; otherwise the speech service receives the truncated script, and its audio becomes a ready result, its failure the audio error message |
| ModuleLabels.LabelRoundTrip | App.py:693-697 | for every integer n and every title, parsing "Module {n}: {title}" gives back n |
| ModuleLabels.RemovePrefix | App.py:697 | removing "Module " from the label head leaves the number text |
| Session.FirstIndexSpec | App.py:163-169 | the element found has the key searched for, and no element before it has it; -1 means no element has it |
| Session.FindFirst | App.py:298-301 | the search loop (used for modules and for chapters) returns the index of the first element with the key, or -1 when none has it |
| Session.LocateChapter | App.py:163-170 | the nested searches return the module and chapter `ChapterLookup` designates |
| Session.ChapterLookupSpec | App.py:163-174 | a found chapter is the first chapter with the requested number in the first module with the requested number, and a structure without modules finds nothing |
| Session.PresentIsFound | App.py:163-170 | whenever the first module with the requested number holds a chapter with the requested number, the lookup finds a chapter of that module |
| Session.ChapterKeyInjective | App.py:177 | two different (module, chapter) pairs never share a cache key |
| Session.QuizKeyInjective | App.py:308 | two different modules never share a quiz key |
| Session.Preview | App.py:274 | the preview is the whole text up to 1000 characters, otherwise its first 1000 followed by "...", so at most 1003 characters |
| Session.UploadStepKeeps | App.py:249-281 | one file keeps names distinct, every stored document admissible and the embedding keys equal to the stored names; stored documents and embeddings stay; at most one is added |
| Session.UploadAllKeeps | App.py:248-285 | the same for a whole batch, so a name repeated within a batch is stored once |
| Session.RejectedAddsNothing | App.py:250-262 | a stored name, an unsupported extension, a file over 10 MiB or a failing `process_document` adds nothing |
| Session.AcceptedIsStored | App.py:266-281 | an accepted file is stored last with its extension, size and preview, and its embeddings under its name |
| Session.UploadBatch | App.py:248-285 | the loop over a batch computes `UploadAll` |
| Session.PyIndex | App.py:215 | Python's index rule: valid exactly for -n ≤ i < n, negative indices counting from the end |
| Session.RemoveAt | App.py:215 | `pop(k)` keeps earlier elements and moves later ones down by one |
| Session.RemoveAtMultiset | App.py:215 | `pop(k)` removes exactly the element at k |
| Session.DocsValidSnoc | App.py:278-281 | appending an admissible document under a fresh name with its embeddings keeps the document invariant |
| Session.InvariantAddChapter | App.py:206 | filling a fresh chapter key while logging one request keeps the cache invariant |
| Session.InvariantAddQuiz | App.py:324 | filling a fresh quiz key while logging one request keeps the cache invariant |
| Session.Session.constructor | App.py:27-50 | the initial session: empty lists, maps and caches, and a structure with an empty module list |
| Session.Session.AddLearningMethod | App.py:209-210 | the item is appended; nothing else changes |
| Session.Session.RemoveLearningMethod | App.py:213-215 | an empty list is left as is; otherwise `pop(index)` removes the indexed element, or IndexError changes nothing |
| Session.Session.UpdateLearningMethod | App.py:218-219 | only the indexed element changes, or IndexError changes nothing |
| Session.Session.AddLearningObjective | App.py:222-223 | the item is appended; nothing else changes |
| Session.Session.RemoveLearningObjective | App.py:226-227 | `pop(index)` removes the indexed element, or IndexError (an empty list included) changes nothing |
| Session.Session.AddPrerequisite | App.py:230-231 | the item is appended; nothing else changes |
| Session.Session.RemovePrerequisite | App.py:234-235 | `pop(index)` removes the indexed element, or IndexError changes nothing |
| Session.Session.ProcessUploadedDocuments | App.py:238-285 | an empty batch or a missing key changes nothing; otherwise only the documents and embeddings change, to the batch's `UploadAll`, and the invariant is kept |
| Session.Session.GenerateChapterDetail | App.py:155-206 | an unknown module or chapter, or a cached key, changes nothing and sends no request. Otherwise exactly one request goes out with the chapter's fields, the joined previews and the first document's embeddings, and its answer (even an error mapping) is stored under the key. All other keys and fields stay |
| Session.Session.GenerateModuleQuiz | App.py:288-324 | a structure without modules, an unknown module or a cached key changes nothing; otherwise exactly one request for the first matching module goes out and its answer is stored under "module_{n}_quiz" |

## Left out

- Remote calls (OpenAI, Anthropic, the TTS and embedding endpoints) and the prompt wording: each reply is an oracle parameter that may fail.
- Text extraction from PDF, DOCX, PPTX and TXT files, temporary files and text decoding: `ProcessDocument` takes the extractor as a function of the document kind.
- The `Failure` of `process` in the upload loop models the catch-all `try`/`except` around `process_document` (App.py:265, 284). The extractors catch their own errors and return a message as the text, so an extractor error reaches `ProcessDocument` as ordinary text through `extract`.
- tiktoken: the token counter is a parameter with `count("") == 0`. The `None` tokenizer stands for any exception in the `try` block at ai_helpers.py:497-529, including one raised by `enc.encode` inside the loop, which selects the 4000-character slices.
- `json.loads` and `json.dumps`: parsed replies are the opaque `Json` datatype, and a parse error is a `Failure` of the reply.
- Base64 encoding of the audio and the `len/16000` duration estimate, which is floating point. `AudioReady` stands for the success mapping with format "mp3".
- The `voice` parameter of `generate_podcast_audio`, which is passed to the remote call only.
- Streamlit rendering, widgets, spinners, `st.rerun`, `st.error`/`st.warning` messages, the `print` logging in the chunker fallback (ai_helpers.py:531) and in `create_embeddings` (ai_helpers.py:570), and environment-variable writes. Only the state changes of the callbacks are modelled.
- Session fields that no modelled callback changes (`api_provider`, `enhanced_description`, `podcast_script`, `podcast_audio`).
- The callbacks `generate_objectives`, `generate_prereqs` and `generate_methods`, which replace the lists with a generator's output (App.py:77-113).
- The callback `enhance_description` (App.py:59-74), which rewrites `course_description`.
- The callback `generate_course_content` (App.py:116-152), the only writer of `course_structure`. In the model the structure is set by the constructor and taken as given by the cache methods.
- Character classes are ASCII: `isdigit` accepts other Unicode digits and `lower` folds other letters. `int()` also accepts underscores and non-ASCII digits.
- `strip` removes the full set of characters for which Python's `str.isspace()` holds, Unicode spaces included. Other Unicode character classes are not modelled.
- Session.GenerateChapterDetail: the first value of `document_embeddings` is taken to be the one stored under the first document's name. That holds because names are inserted in document order and never removed; the model states it rather than modelling dictionary order.
- Session.GenerateChapterDetail: Python's `not module or not chapter` also rejects an empty chapter or module mapping, which the structure never holds. Here a found chapter always counts as found.
- Session.ChapterLookup: a course structure without "modules" raises KeyError in `generate_chapter_detail`. It is modelled as leaving the state unchanged.
- Chapter numbers are opaque values compared for equality. Module numbers are integers.
- Session.ChapterKey: the key uses the stored literal of the chapter number. Python formats the JSON number itself, so `1.10` gives "1.1", and `1` and `1.0` give different keys although they compare equal. Chapter literals are assumed to be in Python's canonical form.
- Documents.EmbedAll: the embedding service is a function, so the same chunk always receives the same answer.
- Session.UploadBatch: the loop runs over local copies of the document list and map, which `ProcessUploadedDocuments` then assigns to the session. Aliasing of the Python lists is not modelled.
- Session.Session.ProcessUploadedDocuments: the key is read from the environment only, as in the source; its message differs from the helpers' and is not modelled.
