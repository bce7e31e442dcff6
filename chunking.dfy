/** `split_text_into_chunks` (ai_helpers.py:485-537): the text is cut into
    "\n"-separated paragraphs, which are grouped greedily into chunks under
    a token budget; when the tokenizer cannot be set up, the text is cut into
    fixed 4000-character slices instead. */
module Chunking {
  import opened Wrappers
  import opened PyStr

  /** The default budget of `max_tokens`. */
  const DefaultMaxTokens: int := 8000

  /** The slice length of the fallback path. */
  const FallbackChunkSize: nat := 4000

  /** The summed token count of a run of paragraphs. */
  ghost function Tokens(ps: seq<string>, count: string -> nat): nat {
    if ps == [] then 0 else Tokens(ps[..|ps| - 1], count) + count(ps[|ps| - 1])
  }

  /** Every paragraph in `ps[a..b]` is empty. */
  ghost predicate AllEmpty(ps: seq<string>, a: int, b: int) {
    forall k :: a <= k < b && 0 <= k < |ps| ==> ps[k] == ""
  }

  /** `chunk` is the run `ps[s..e]`: it starts at a non-empty paragraph, is
      their "\n"-join, exceeds the budget only when it is one paragraph, and,
      unless it reaches the end, was closed because paragraph `e` did not fit. */
  ghost predicate Run(ps: seq<string>, chunk: string, s: int, e: int, count: string -> nat, maxTokens: int) {
    && 0 <= s < e <= |ps|
    && ps[s] != ""
    && chunk == Join(ps[s..e], "\n")
    && (Tokens(ps[s..e], count) > maxTokens ==> e == s + 1)
    && (e < |ps| ==> Tokens(ps[s..e], count) + count(ps[e]) > maxTokens)
  }

  /** Where the last run ends (0 when there is none). */
  function LastEnd(runs: seq<(int, int)>): int {
    if runs == [] then 0 else runs[|runs| - 1].1
  }

  /** `chunks` are the runs `runs` in order, with only empty paragraphs before,
      between and after them up to `upTo`. */
  ghost predicate RunsUpTo(ps: seq<string>, chunks: seq<string>, runs: seq<(int, int)>,
                           count: string -> nat, maxTokens: int, upTo: int) {
    && |runs| == |chunks|
    && (forall r :: 0 <= r < |runs| ==> Run(ps, chunks[r], runs[r].0, runs[r].1, count, maxTokens))
    && (forall r :: 0 <= r < |runs| - 1 ==> runs[r].1 <= runs[r + 1].0 && AllEmpty(ps, runs[r].1, runs[r + 1].0))
    && (|runs| > 0 ==> AllEmpty(ps, 0, runs[0].0))
    && LastEnd(runs) <= upTo
  }

  /** The chunks of `ps`: every non-empty paragraph belongs to exactly one run. */
  ghost predicate ChunkRuns(ps: seq<string>, chunks: seq<string>, runs: seq<(int, int)>,
                            count: string -> nat, maxTokens: int) {
    RunsUpTo(ps, chunks, runs, count, maxTokens, |ps|) && AllEmpty(ps, LastEnd(runs), |ps|)
  }

  lemma RunsSnoc(ps: seq<string>, chunks: seq<string>, runs: seq<(int, int)>,
                 count: string -> nat, maxTokens: int, c: string, s: int, e: int)
    requires RunsUpTo(ps, chunks, runs, count, maxTokens, s)
    requires AllEmpty(ps, LastEnd(runs), s)
    requires Run(ps, c, s, e, count, maxTokens)
    ensures RunsUpTo(ps, chunks + [c], runs + [(s, e)], count, maxTokens, e)
  {
    var runs' := runs + [(s, e)];
    var chunks' := chunks + [c];
    forall r | 0 <= r < |runs'|
      ensures Run(ps, chunks'[r], runs'[r].0, runs'[r].1, count, maxTokens)
    {
      if r < |runs| {
        assert runs'[r] == runs[r] && chunks'[r] == chunks[r];
      }
    }
    forall r | 0 <= r < |runs'| - 1
      ensures runs'[r].1 <= runs'[r + 1].0 && AllEmpty(ps, runs'[r].1, runs'[r + 1].0)
    {
      assert runs'[r] == runs[r];
      if r + 1 < |runs| {
        assert runs'[r + 1] == runs[r + 1];
      } else {
        assert runs[r].1 == LastEnd(runs);
      }
    }
    assert |runs| > 0 ==> runs'[0] == runs[0];
  }

  /** A run extended by one more paragraph that fits in the budget. */
  lemma ExtendRun(ps: seq<string>, s: int, i: int, count: string -> nat)
    requires 0 <= s < i < |ps|
    ensures Join(ps[s..i + 1], "\n") == Join(ps[s..i], "\n") + "\n" + ps[i]
    ensures Tokens(ps[s..i + 1], count) == Tokens(ps[s..i], count) + count(ps[i])
  {
    assert ps[s..i + 1] == ps[s..i] + [ps[i]];
    assert ps[s..i + 1][..i - s] == ps[s..i];
    JoinSnoc(ps[s..i], ps[i], "\n");
  }

  lemma OneParagraph(ps: seq<string>, i: int, count: string -> nat)
    requires 0 <= i < |ps|
    ensures Join(ps[i..i + 1], "\n") == ps[i]
    ensures Tokens(ps[i..i + 1], count) == count(ps[i])
  {
    assert ps[i..i + 1] == [ps[i]];
    assert [ps[i]][..0] == [];
  }

  /** The state of the greedy loop after the first `i` paragraphs: the
      closed chunks are runs, and a non-empty `current` is the open run
      `ps[start..i]` with its token count. */
  ghost predicate Progress(ps: seq<string>, chunks: seq<string>, runs: seq<(int, int)>,
                           current: string, currentTokenCount: int, start: int, i: int,
                           count: string -> nat, maxTokens: int) {
    && 0 <= i <= |ps|
    && RunsUpTo(ps, chunks, runs, count, maxTokens, i)
    && (forall r :: 0 <= r < |runs| ==> runs[r].1 < |ps|)
    && (forall k :: 0 <= k < |chunks| ==> chunks[k] != "")
    && (current == "" ==> currentTokenCount == 0 && AllEmpty(ps, LastEnd(runs), i))
    && (current != "" ==>
         && LastEnd(runs) <= start < i
         && AllEmpty(ps, LastEnd(runs), start)
         && ps[start] != ""
         && current == Join(ps[start..i], "\n")
         && currentTokenCount == Tokens(ps[start..i], count)
         && (currentTokenCount > maxTokens ==> i == start + 1))
  }

  /** Paragraph `i` opens a chunk after the closed runs. */
  lemma OpenAt(ps: seq<string>, chunks: seq<string>, runs: seq<(int, int)>, i: int,
               count: string -> nat, maxTokens: int)
    requires count("") == 0
    requires 0 <= i < |ps|
    requires RunsUpTo(ps, chunks, runs, count, maxTokens, i) && AllEmpty(ps, LastEnd(runs), i)
    requires forall r :: 0 <= r < |runs| ==> runs[r].1 < |ps|
    requires forall k :: 0 <= k < |chunks| ==> chunks[k] != ""
    ensures Progress(ps, chunks, runs, ps[i], count(ps[i]), i, i + 1, count, maxTokens)
  {
    OneParagraph(ps, i, count);
    RunsUpToLater(ps, chunks, runs, count, maxTokens, i, i + 1);
  }

  /** A non-empty open chunk that paragraph `i` does not fit in is a run. */
  lemma CloseRun(ps: seq<string>, chunks: seq<string>, runs: seq<(int, int)>,
                 current: string, currentTokenCount: int, start: int, i: int,
                 count: string -> nat, maxTokens: int)
    requires Progress(ps, chunks, runs, current, currentTokenCount, start, i, count, maxTokens)
    requires i < |ps| && currentTokenCount + count(ps[i]) > maxTokens && current != ""
    ensures Run(ps, current, start, i, count, maxTokens)
    ensures RunsUpTo(ps, chunks + [current], runs + [(start, i)], count, maxTokens, i)
  {
    RunsSnoc(ps, chunks, runs, count, maxTokens, current, start, i);
  }

  /** Paragraph `i` does not fit: the open chunk is closed and paragraph `i`
      opens the next one. */
  lemma StepClose(ps: seq<string>, chunks: seq<string>, runs: seq<(int, int)>,
                  current: string, currentTokenCount: int, start: int, i: int,
                  count: string -> nat, maxTokens: int)
    requires count("") == 0
    requires Progress(ps, chunks, runs, current, currentTokenCount, start, i, count, maxTokens)
    requires i < |ps| && currentTokenCount + count(ps[i]) > maxTokens && current != ""
    ensures Progress(ps, chunks + [current], runs + [(start, i)], ps[i], count(ps[i]), i, i + 1, count, maxTokens)
  {
    CloseRun(ps, chunks, runs, current, currentTokenCount, start, i, count, maxTokens);
    var chunks' := chunks + [current];
    var runs' := runs + [(start, i)];
    assert LastEnd(runs') == i;
    assert forall k :: 0 <= k < |chunks'| ==> chunks'[k] != "" by {
      assert forall k :: 0 <= k < |chunks| ==> chunks'[k] == chunks[k];
    }
    assert forall r :: 0 <= r < |runs'| ==> runs'[r].1 < |ps| by {
      assert forall r :: 0 <= r < |runs| ==> runs'[r] == runs[r];
    }
    OpenAt(ps, chunks', runs', i, count, maxTokens);
  }

  lemma RunsUpToLater(ps: seq<string>, chunks: seq<string>, runs: seq<(int, int)>,
                      count: string -> nat, maxTokens: int, u: int, v: int)
    requires RunsUpTo(ps, chunks, runs, count, maxTokens, u) && u <= v
    ensures RunsUpTo(ps, chunks, runs, count, maxTokens, v)
  {
  }

  /** Paragraph `i` does not fit and there is no open chunk: paragraph `i`
      opens one. */
  lemma StepRestart(ps: seq<string>, chunks: seq<string>, runs: seq<(int, int)>,
                    current: string, currentTokenCount: int, start: int, i: int,
                    count: string -> nat, maxTokens: int)
    requires count("") == 0
    requires Progress(ps, chunks, runs, current, currentTokenCount, start, i, count, maxTokens)
    requires i < |ps| && currentTokenCount + count(ps[i]) > maxTokens && current == ""
    ensures Progress(ps, chunks, runs, ps[i], count(ps[i]), i, i + 1, count, maxTokens)
  {
    OpenAt(ps, chunks, runs, i, count, maxTokens);
  }

  /** Paragraph `i` fits and is added to the open chunk. */
  lemma StepExtend(ps: seq<string>, chunks: seq<string>, runs: seq<(int, int)>,
                   current: string, currentTokenCount: int, start: int, i: int,
                   count: string -> nat, maxTokens: int)
    requires Progress(ps, chunks, runs, current, currentTokenCount, start, i, count, maxTokens)
    requires i < |ps| && currentTokenCount + count(ps[i]) <= maxTokens && current != ""
    ensures Progress(ps, chunks, runs, current + "\n" + ps[i], currentTokenCount + count(ps[i]),
                     start, i + 1, count, maxTokens)
  {
    ExtendRun(ps, start, i, count);
  }

  /** Paragraph `i` fits and there is no open chunk: it opens one. */
  lemma StepOpen(ps: seq<string>, chunks: seq<string>, runs: seq<(int, int)>,
                 current: string, currentTokenCount: int, start: int, i: int,
                 count: string -> nat, maxTokens: int)
    requires count("") == 0
    requires Progress(ps, chunks, runs, current, currentTokenCount, start, i, count, maxTokens)
    requires i < |ps| && currentTokenCount + count(ps[i]) <= maxTokens && current == ""
    ensures Progress(ps, chunks, runs, ps[i], currentTokenCount + count(ps[i]), i, i + 1, count, maxTokens)
  {
    OpenAt(ps, chunks, runs, i, count, maxTokens);
  }

  /** The variables of the greedy loop, with the runs behind the closed
      chunks and the start of the open one (used only in proofs). */
  datatype GreedyState = GreedyState(chunks: seq<string>, current: string, tokens: int,
                                     runs: seq<(int, int)>, start: int)

  /** One iteration of the greedy loop (ai_helpers.py:509-523) on paragraph
      number `i`, `p`. */
  function Feed(st: GreedyState, p: string, i: int, count: string -> nat, maxTokens: int): GreedyState {
    var t := count(p);
    if st.tokens + t > maxTokens then
      if st.current != "" then GreedyState(st.chunks + [st.current], p, t, st.runs + [(st.start, i)], i)
      else GreedyState(st.chunks, p, t, st.runs, i)
    else if st.current != "" then GreedyState(st.chunks, st.current + "\n" + p, st.tokens + t, st.runs, st.start)
    else GreedyState(st.chunks, p, st.tokens + t, st.runs, i)
  }

  /** The loop state after all of `ps`. */
  function GreedyRun(ps: seq<string>, count: string -> nat, maxTokens: int): GreedyState {
    if ps == [] then GreedyState([], "", 0, [], 0)
    else Feed(GreedyRun(ps[..|ps| - 1], count, maxTokens), ps[|ps| - 1], |ps| - 1, count, maxTokens)
  }

  /** The chunks returned for `ps`: the closed ones and a non-empty last one
      (ai_helpers.py:525-527). */
  function GreedyChunks(ps: seq<string>, count: string -> nat, maxTokens: int): seq<string> {
    var st := GreedyRun(ps, count, maxTokens);
    if st.current != "" then st.chunks + [st.current] else st.chunks
  }

  /** The runs behind `GreedyChunks`. */
  function GreedyRuns(ps: seq<string>, count: string -> nat, maxTokens: int): seq<(int, int)> {
    var st := GreedyRun(ps, count, maxTokens);
    if st.current != "" then st.runs + [(st.start, |ps|)] else st.runs
  }

  /** Each iteration keeps the loop state. */
  lemma Step(ps: seq<string>, st: GreedyState, i: int, count: string -> nat, maxTokens: int)
    requires count("") == 0
    requires Progress(ps, st.chunks, st.runs, st.current, st.tokens, st.start, i, count, maxTokens)
    requires i < |ps|
    ensures var st' := Feed(st, ps[i], i, count, maxTokens);
      Progress(ps, st'.chunks, st'.runs, st'.current, st'.tokens, st'.start, i + 1, count, maxTokens)
  {
    if st.tokens + count(ps[i]) > maxTokens && st.current != "" {
      StepClose(ps, st.chunks, st.runs, st.current, st.tokens, st.start, i, count, maxTokens);
    } else if st.tokens + count(ps[i]) > maxTokens {
      StepRestart(ps, st.chunks, st.runs, st.current, st.tokens, st.start, i, count, maxTokens);
    } else if st.current != "" {
      StepExtend(ps, st.chunks, st.runs, st.current, st.tokens, st.start, i, count, maxTokens);
    } else {
      StepOpen(ps, st.chunks, st.runs, st.current, st.tokens, st.start, i, count, maxTokens);
    }
  }

  /** After `i` paragraphs the loop state is as `Progress` describes. */
  lemma {:induction false} GreedyProgress(ps: seq<string>, i: int, count: string -> nat, maxTokens: int)
    requires count("") == 0
    requires 0 <= i <= |ps|
    ensures var st := GreedyRun(ps[..i], count, maxTokens);
      Progress(ps, st.chunks, st.runs, st.current, st.tokens, st.start, i, count, maxTokens)
  {
    if i == 0 {
      assert ps[..0] == [];
      StartProgress(ps, count, maxTokens);
    } else {
      GreedyProgress(ps, i - 1, count, maxTokens);
      var prev := GreedyRun(ps[..i - 1], count, maxTokens);
      GreedyRunSnoc(ps, i - 1, count, maxTokens);
      Step(ps, prev, i - 1, count, maxTokens);
    }
  }

  /** The loop state after one more paragraph is one more `Feed`. */
  lemma GreedyRunSnoc(ps: seq<string>, i: int, count: string -> nat, maxTokens: int)
    requires 0 <= i < |ps|
    ensures GreedyRun(ps[..i + 1], count, maxTokens) == Feed(GreedyRun(ps[..i], count, maxTokens), ps[i], i, count, maxTokens)
  {
    assert ps[..i + 1][..i] == ps[..i];
    assert ps[..i + 1][i] == ps[i];
  }

  /** Before the first paragraph nothing is open and nothing is closed. */
  lemma StartProgress(ps: seq<string>, count: string -> nat, maxTokens: int)
    ensures Progress(ps, [], [], "", 0, 0, 0, count, maxTokens)
  {
  }

  /** After the last paragraph, a non-empty open chunk is closed. */
  lemma Finish(ps: seq<string>, chunks: seq<string>, runs: seq<(int, int)>,
               current: string, currentTokenCount: int, start: int,
               count: string -> nat, maxTokens: int)
    requires Progress(ps, chunks, runs, current, currentTokenCount, start, |ps|, count, maxTokens)
    ensures current != "" ==>
      && ChunkRuns(ps, chunks + [current], runs + [(start, |ps|)], count, maxTokens)
      && forall k :: 0 <= k < |chunks + [current]| ==> (chunks + [current])[k] != ""
    ensures current == "" ==> ChunkRuns(ps, chunks, runs, count, maxTokens)
  {
    if current != "" {
      RunsSnoc(ps, chunks, runs, count, maxTokens, current, start, |ps|);
    }
  }

  /** The chunks are the "\n"-joins of contiguous runs of paragraphs, in
      order; only empty paragraphs lie outside the runs; a run over the budget
      is a single paragraph; each run but the last was closed by a paragraph
      that did not fit; and no chunk is empty. */
  lemma GreedyChunksAreRuns(ps: seq<string>, count: string -> nat, maxTokens: int)
    requires count("") == 0
    ensures ChunkRuns(ps, GreedyChunks(ps, count, maxTokens), GreedyRuns(ps, count, maxTokens), count, maxTokens)
    ensures forall k :: 0 <= k < |GreedyChunks(ps, count, maxTokens)| ==> GreedyChunks(ps, count, maxTokens)[k] != ""
  {
    GreedyProgress(ps, |ps|, count, maxTokens);
    assert ps[..|ps|] == ps;
    var st := GreedyRun(ps, count, maxTokens);
    Finish(ps, st.chunks, st.runs, st.current, st.tokens, st.start, count, maxTokens);
  }

  /** The greedy loop of ai_helpers.py:503-530 over the paragraphs. */
  method GroupParagraphs(paragraphs: seq<string>, count: string -> nat, maxTokens: int)
    returns (chunks: seq<string>)
    requires count("") == 0
    ensures chunks == GreedyChunks(paragraphs, count, maxTokens)
    ensures forall k :: 0 <= k < |chunks| ==> chunks[k] != ""
    ensures exists runs :: ChunkRuns(paragraphs, chunks, runs, count, maxTokens)
  {
    chunks := [];
    var current := "";
    var currentTokenCount: int := 0;
    ghost var runs: seq<(int, int)> := [];
    ghost var start := 0;
    var i := 0;
    while i < |paragraphs|
      invariant 0 <= i <= |paragraphs|
      invariant GreedyRun(paragraphs[..i], count, maxTokens) == GreedyState(chunks, current, currentTokenCount, runs, start)
    {
      assert paragraphs[..i + 1][..i] == paragraphs[..i];
      var paragraph := paragraphs[i];
      var paragraphTokens := count(paragraph);
      if currentTokenCount + paragraphTokens > maxTokens {
        if current != "" {
          chunks := chunks + [current];
          runs := runs + [(start, i)];
        }
        current := paragraph;
        currentTokenCount := paragraphTokens;
        start := i;
      } else {
        if current != "" {
          current := current + "\n" + paragraph;
        } else {
          current := paragraph;
          start := i;
        }
        currentTokenCount := currentTokenCount + paragraphTokens;
      }
      i := i + 1;
    }
    assert paragraphs[..i] == paragraphs;
    if current != "" {
      chunks := chunks + [current];
    }
    GreedyChunksAreRuns(paragraphs, count, maxTokens);
  }

  /** No paragraph is empty. */
  ghost predicate NoEmptyParagraph(ps: seq<string>) {
    forall k :: 0 <= k < |ps| ==> ps[k] != ""
  }

  /** Without empty paragraphs, a range of empty paragraphs is empty. */
  lemma EmptyRange(ps: seq<string>, a: int, b: int)
    requires NoEmptyParagraph(ps) && 0 <= a <= b <= |ps| && AllEmpty(ps, a, b)
    ensures a == b
  {
    assert a < b ==> ParagraphAt(ps, a) == "";
  }

  /** Paragraph `k`, or "" outside the text. */
  function ParagraphAt(ps: seq<string>, k: int): string {
    if 0 <= k < |ps| then ps[k] else ""
  }

  /** Without empty paragraphs the runs tile the paragraphs, so the first
      `r + 1` chunks join to the paragraphs up to the end of run `r`. */
  lemma {:induction false} JoinRunsPrefix(ps: seq<string>, chunks: seq<string>, runs: seq<(int, int)>,
                                          count: string -> nat, maxTokens: int, r: int)
    requires ChunkRuns(ps, chunks, runs, count, maxTokens) && NoEmptyParagraph(ps)
    requires 0 <= r < |runs|
    ensures Join(chunks[..r + 1], "\n") == Join(ps[..runs[r].1], "\n")
  {
    var (s, e) := runs[r];
    assert Run(ps, chunks[r], s, e, count, maxTokens);
    if r == 0 {
      EmptyRange(ps, 0, s);
      assert chunks[..1] == [chunks[0]];
      assert ps[s..e] == ps[..e];
    } else {
      JoinRunsPrefix(ps, chunks, runs, count, maxTokens, r - 1);
      assert runs[r - 1].1 == s;
      assert chunks[..r + 1] == chunks[..r] + [chunks[r]];
      JoinSnoc(chunks[..r], chunks[r], "\n");
      JoinAtCut(ps, s, e);
    }
  }

  lemma JoinAtCut(ps: seq<string>, s: int, e: int)
    requires 0 < s < e <= |ps|
    ensures Join(ps[..e], "\n") == Join(ps[..s], "\n") + "\n" + Join(ps[s..e], "\n")
  {
    assert ps[..e] == ps[..s] + ps[s..e];
    JoinAppend(ps[..s], ps[s..e], "\n");
  }

  /** Without empty paragraphs, joining the chunks with "\n" gives back the
      paragraphs joined with "\n". */
  lemma JoinRuns(ps: seq<string>, chunks: seq<string>, runs: seq<(int, int)>,
                 count: string -> nat, maxTokens: int)
    requires ChunkRuns(ps, chunks, runs, count, maxTokens) && NoEmptyParagraph(ps)
    ensures Join(chunks, "\n") == Join(ps, "\n")
  {
    if runs == [] {
      EmptyRange(ps, 0, |ps|);
    } else {
      var n := |runs|;
      JoinRunsPrefix(ps, chunks, runs, count, maxTokens, n - 1);
      assert runs[n - 1].1 == |ps|;
      assert chunks[..n] == chunks;
      assert ps[..|ps|] == ps;
    }
  }

  /** If no paragraph of the text is empty, joining the chunks with "\n"
      reproduces the text exactly. */
  lemma GreedyRoundTrip(text: string, count: string -> nat, maxTokens: int)
    requires count("") == 0
    requires NoEmptyParagraph(Split(text, '\n'))
    ensures Join(GreedyChunks(Split(text, '\n'), count, maxTokens), "\n") == text
  {
    var ps := Split(text, '\n');
    GreedyChunksAreRuns(ps, count, maxTokens);
    JoinRuns(ps, GreedyChunks(ps, count, maxTokens), GreedyRuns(ps, count, maxTokens), count, maxTokens);
    JoinSplit(text, '\n');
  }

  /** There are no chunks exactly when every paragraph is empty. */
  lemma GreedyChunksEmptyIff(ps: seq<string>, count: string -> nat, maxTokens: int)
    requires count("") == 0
    ensures GreedyChunks(ps, count, maxTokens) == [] <==> AllEmpty(ps, 0, |ps|)
  {
    var chunks := GreedyChunks(ps, count, maxTokens);
    var runs := GreedyRuns(ps, count, maxTokens);
    GreedyChunksAreRuns(ps, count, maxTokens);
    if chunks != [] {
      assert Run(ps, chunks[0], runs[0].0, runs[0].1, count, maxTokens);
    }
  }

  function Min(a: int, b: int): int {
    if a <= b then a else b
  }

  /** `slices` cut `text` into pieces of `FallbackChunkSize` characters, the
      last of which may be shorter but not empty. */
  ghost predicate FixedSlices(text: string, slices: seq<string>) {
    && Concat(slices) == text
    && (forall k :: 0 <= k < |slices| ==> 0 < |slices[k]| <= FallbackChunkSize)
    && (forall k :: 0 <= k < |slices| - 1 ==> |slices[k]| == FallbackChunkSize)
  }

  /** The fallback of ai_helpers.py:531-537: consecutive 4000-character slices. */
  method FallbackSlices(text: string) returns (slices: seq<string>)
    ensures FixedSlices(text, slices)
    ensures slices == [] <==> text == []
  {
    var chunkSize := FallbackChunkSize;
    slices := [];
    var i := 0;
    while i < |text|
      invariant i == |slices| * chunkSize
      invariant Concat(slices) == text[..Min(i, |text|)]
      invariant forall k :: 0 <= k < |slices| ==> 0 < |slices[k]| <= chunkSize
      invariant forall k :: 0 <= k < |slices| - 1 ==> |slices[k]| == chunkSize
      invariant |slices| > 0 && i <= |text| ==> |slices[|slices| - 1]| == chunkSize
      invariant slices == [] <==> i == 0
    {
      var piece := text[i..Min(i + chunkSize, |text|)];
      ConcatSnoc(slices, piece);
      assert text[..Min(i + chunkSize, |text|)] == text[..i] + piece;
      slices := slices + [piece];
      i := i + chunkSize;
    }
    assert text[..|text|] == text;
  }

  /** `split_text_into_chunks` (ai_helpers.py:485-537): the greedy chunks
      when a tokenizer is available, the fixed slices otherwise; either way
      no chunk is empty. */
  method SplitTextIntoChunks(text: string, tokenizer: Option<string -> nat>, maxTokens: int)
    returns (chunks: seq<string>)
    requires tokenizer.Some? ==> tokenizer.value("") == 0
    ensures tokenizer.Some? ==> chunks == GreedyChunks(Split(text, '\n'), tokenizer.value, maxTokens)
    ensures tokenizer.None? ==> FixedSlices(text, chunks)
    ensures forall k :: 0 <= k < |chunks| ==> chunks[k] != ""
  {
    match tokenizer {
      case Some(count) =>
        var paragraphs := Split(text, '\n');
        chunks := GroupParagraphs(paragraphs, count, maxTokens);
      case None =>
        chunks := FallbackSlices(text);
    }
  }
}
