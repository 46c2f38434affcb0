/**
 * What the chunk/merge/validate loop of `run_pipeline` does: the prompts it
 * sends, the fragment files it writes (always to the archive, to the review
 * folder only when the merge is not reported as a success), the validation it
 * invokes once per non-empty document, and the files it leaves alone.
 */
module GenerationFacts {
  import opened Wrappers
  import opened Paths
  import Splitter
  import Prompts
  import opened Pipeline
  import opened StagingFacts

  /** The prompt `build_generation_prompt` gives each chunk, in order. */
  function PromptsFor(e: Env, chunks: seq<string>): seq<string>
  {
    seq(|chunks|, i requires 0 <= i < |chunks| => Prompts.Fill(e.generation, chunks[i]))
  }

  /** The reply the LLM gives for chunk `j`, when the loop for a document starts at chunk `k` in state `st`. */
  function FragmentAt(e: Env, st: State, chunks: seq<string>, k: nat, j: nat): string
    requires k <= j < |chunks|
  {
    e.llm(|st.prompts| + (j - k), Prompts.Fill(e.generation, chunks[j]))
  }

  /** A file the loop for `doc` writes from chunk `k` on: the archive or review name of one of those chunks. */
  ghost predicate WrittenFrom(doc: string, chunks: seq<string>, k: nat, q: string)
  {
    exists j :: k <= j < |chunks| && (q == ChunkFile(FragmentsDir, doc, chunks, j) || q == ChunkFile(ReviewDir, doc, chunks, j))
  }

  lemma ChunkFileIn(dir: string, doc: string, chunks: seq<string>, j: nat)
    requires j < |chunks|
    ensures StartsWith(ChunkFile(dir, doc, chunks, j), dir + "/")
  {
    var tail := Basename(doc) + "_" + NatToString(IndexOf(chunks, chunks[j])) + ".ttl";
    assert ChunkFile(dir, doc, chunks, j) == (dir + "/") + tail;
    PrefixOfConcat(dir + "/", tail);
  }

  /**
   * Two chunk files coincide only in the same folder and for equal chunks:
   * the archive and the review folder never share a name, and different chunk
   * texts get different indices.
   */
  lemma ChunkFileDistinct(d1: string, d2: string, doc: string, chunks: seq<string>, i: nat, j: nat)
    requires d1 in {FragmentsDir, ReviewDir} && d2 in {FragmentsDir, ReviewDir}
    requires i < |chunks| && j < |chunks|
    requires d1 != d2 || chunks[i] != chunks[j]
    ensures ChunkFile(d1, doc, chunks, i) != ChunkFile(d2, doc, chunks, j)
  {
    var a, b := ChunkFile(d1, doc, chunks, i), ChunkFile(d2, doc, chunks, j);
    ChunkFileIn(d1, doc, chunks, i);
    ChunkFileIn(d2, doc, chunks, j);
    if d1 != d2 {
      FoldersDisjoint(a);
      FoldersDisjoint(b);
    } else if a == b {
      FragmentNameInjective(d1, Basename(doc), IndexOf(chunks, chunks[i]), Basename(doc), IndexOf(chunks, chunks[j]));
    }
  }

  /** Chunks with the same text share their files. */
  lemma ChunkFileSame(d: string, doc: string, chunks: seq<string>, i: nat, j: nat)
    requires i < |chunks| && j < |chunks| && chunks[i] == chunks[j]
    ensures ChunkFile(d, doc, chunks, i) == ChunkFile(d, doc, chunks, j)
  {
    assert IndexOf(chunks, chunks[i]) == IndexOf(chunks, chunks[j]);
  }

  /** The chunk loop writes nothing but the archive and review names of its chunks. */
  lemma {:induction false} ChunksFrame(e: Env, st: State, doc: string, chunks: seq<string>, k: nat, q: string)
    requires k <= |chunks|
    requires !WrittenFrom(doc, chunks, k, q)
    ensures var r := ChunksFrom(e, st, doc, chunks, k);
      (q in r.files <==> q in st.files) && (q in st.files ==> r.files[q] == st.files[q])
    decreases |chunks| - k
  {
    if k < |chunks| {
      assert q != ChunkFile(FragmentsDir, doc, chunks, k) && q != ChunkFile(ReviewDir, doc, chunks, k);
      StepFrame(e, st, doc, chunks, k, q);
      assert !WrittenFrom(doc, chunks, k + 1, q);
      ChunksFrame(e, ChunkStep(e, st, doc, chunks, k), doc, chunks, k + 1, q);
    }
  }

  lemma StepFrame(e: Env, st: State, doc: string, chunks: seq<string>, k: nat, q: string)
    requires k < |chunks|
    requires q != ChunkFile(FragmentsDir, doc, chunks, k) && q != ChunkFile(ReviewDir, doc, chunks, k)
    ensures var r := ChunkStep(e, st, doc, chunks, k);
      (q in r.files <==> q in st.files) && (q in st.files ==> r.files[q] == st.files[q])
  {
  }

  /** A file outside the archive and review folders is never written by the chunk loop. */
  lemma ChunksElsewhere(e: Env, st: State, doc: string, chunks: seq<string>, q: string)
    requires !StartsWith(q, FragmentsDir + "/") && !StartsWith(q, ReviewDir + "/")
    ensures var r := ChunksFrom(e, st, doc, chunks, 0);
      (q in r.files <==> q in st.files) && (q in st.files ==> r.files[q] == st.files[q])
  {
    forall j | 0 <= j < |chunks|
      ensures q != ChunkFile(FragmentsDir, doc, chunks, j) && q != ChunkFile(ReviewDir, doc, chunks, j)
    {
      ChunkFileIn(FragmentsDir, doc, chunks, j);
      ChunkFileIn(ReviewDir, doc, chunks, j);
    }
    ChunksFrame(e, st, doc, chunks, 0, q);
  }

  /**
   * From chunk `k` on, one prompt per chunk is sent, in order; one parse per
   * chunk is made; and the document is validated once, after its last chunk,
   * exactly when there is a chunk left.
   */
  lemma {:induction false} ChunksLog(e: Env, st: State, doc: string, chunks: seq<string>, k: nat)
    requires k <= |chunks|
    ensures var r := ChunksFrom(e, st, doc, chunks, k);
      && r.prompts == st.prompts + PromptsFor(e, chunks[k..])
      && r.validated == st.validated + (if k < |chunks| then [doc] else [])
      && r.parses == st.parses + (|chunks| - k)
    decreases |chunks| - k
  {
    if k < |chunks| {
      var st' := ChunkStep(e, st, doc, chunks, k);
      ChunksLog(e, st', doc, chunks, k + 1);
      PromptsForCons(e, chunks, k);
      AppendAssoc(st.prompts, [Prompts.Fill(e.generation, chunks[k])], PromptsFor(e, chunks[k + 1..]));
    } else {
      assert PromptsFor(e, chunks[k..]) == [];
    }
  }

  /** Chunk `j`'s archive file, and its review file unless the merge of `fragment` is reported as a success, are in `files`. */
  predicate WrittenAt(e: Env, files: Files, doc: string, chunks: seq<string>, j: nat, fragment: string)
    requires j < |chunks|
  {
    && ChunkFile(FragmentsDir, doc, chunks, j) in files
    && (!e.mergeReport(fragment) ==> ChunkFile(ReviewDir, doc, chunks, j) in files)
  }

  /** One step later, one more prompt has been sent, so the reply for chunk `j` is the same. */
  lemma FragmentAtShift(e: Env, st: State, st': State, chunks: seq<string>, k: nat, j: nat)
    requires k < j < |chunks|
    requires |st'.prompts| == |st.prompts| + 1
    ensures FragmentAt(e, st', chunks, k + 1, j) == FragmentAt(e, st, chunks, k, j)
  {
    assert |st'.prompts| + (j - (k + 1)) == |st.prompts| + (j - k);
  }

  /** Files once present stay present, so a chunk stays written. */
  lemma WrittenAtGrows(e: Env, f1: Files, f2: Files, doc: string, chunks: seq<string>, j: nat, fragment: string)
    requires j < |chunks| && f1.Keys <= f2.Keys && WrittenAt(e, f1, doc, chunks, j, fragment)
    ensures WrittenAt(e, f2, doc, chunks, j, fragment)
  {
  }

  lemma StepWrites(e: Env, st: State, doc: string, chunks: seq<string>, k: nat)
    requires k < |chunks|
    ensures WrittenAt(e, ChunkStep(e, st, doc, chunks, k).files, doc, chunks, k, FragmentAt(e, st, chunks, k, k))
    ensures |ChunkStep(e, st, doc, chunks, k).prompts| == |st.prompts| + 1
  {
  }

  lemma PromptsForCons(e: Env, chunks: seq<string>, k: nat)
    requires k < |chunks|
    ensures PromptsFor(e, chunks[k..]) == [Prompts.Fill(e.generation, chunks[k])] + PromptsFor(e, chunks[k + 1..])
  {
    var a, b := PromptsFor(e, chunks[k..]), [Prompts.Fill(e.generation, chunks[k])] + PromptsFor(e, chunks[k + 1..]);
    assert |a| == |b|;
    forall i | 0 <= i < |a| ensures a[i] == b[i] {
      if i > 0 {
        assert chunks[k..][i] == chunks[k + 1..][i - 1];
      }
    }
  }

  /**
   * Every chunk's fragment is archived, and every chunk whose merge is not
   * reported as a success has a copy in the review folder.
   */
  lemma {:induction false} ChunksWrites(e: Env, st: State, doc: string, chunks: seq<string>, k: nat)
    requires k <= |chunks|
    ensures AllWrittenFrom(e, ChunksFrom(e, st, doc, chunks, k).files, doc, st, chunks, k)
    decreases |chunks| - k
  {
    if k < |chunks| {
      ChunksWrites(e, ChunkStep(e, st, doc, chunks, k), doc, chunks, k + 1);
      ChunksWritesStep(e, st, doc, chunks, k);
    }
  }

  /** The inductive step of ChunksWrites: what the rest of the loop writes, plus what chunk `k` writes. */
  lemma ChunksWritesStep(e: Env, st: State, doc: string, chunks: seq<string>, k: nat)
    requires k < |chunks|
    requires AllWrittenFrom(e, ChunksFrom(e, ChunkStep(e, st, doc, chunks, k), doc, chunks, k + 1).files,
                            doc, ChunkStep(e, st, doc, chunks, k), chunks, k + 1)
    ensures AllWrittenFrom(e, ChunksFrom(e, st, doc, chunks, k).files, doc, st, chunks, k)
  {
    var st' := ChunkStep(e, st, doc, chunks, k);
    var r := ChunksFrom(e, st', doc, chunks, k + 1);
    assert r == ChunksFrom(e, st, doc, chunks, k);
    StepWrites(e, st, doc, chunks, k);
    WritesCons(e, st, st', r.files, doc, chunks, k, k + 1);
  }

  /** Every chunk from `k` on is written in `files`, with the fragment the loop started at `st` asks for it. */
  ghost predicate AllWrittenFrom(e: Env, files: Files, doc: string, st: State, chunks: seq<string>, k: nat)
  {
    forall j :: k <= j < |chunks| ==> WrittenAt(e, files, doc, chunks, j, FragmentAt(e, st, chunks, k, j))
  }

  /** The chunk written by one step, then the chunks written by the rest of the loop, are all written at its end. */
  lemma WritesCons(e: Env, st: State, st': State, files: Files, doc: string, chunks: seq<string>, k: nat, next: nat)
    requires k < |chunks| && next == k + 1 && |st'.prompts| == |st.prompts| + 1 && st'.files.Keys <= files.Keys
    requires WrittenAt(e, st'.files, doc, chunks, k, FragmentAt(e, st, chunks, k, k))
    requires AllWrittenFrom(e, files, doc, st', chunks, next)
    ensures AllWrittenFrom(e, files, doc, st, chunks, k)
  {
    forall j | k <= j < |chunks| ensures WrittenAt(e, files, doc, chunks, j, FragmentAt(e, st, chunks, k, j)) {
      if j == k {
        WrittenAtGrows(e, st'.files, files, doc, chunks, k, FragmentAt(e, st, chunks, k, k));
      } else {
        FragmentAtShift(e, st, st', chunks, k, j);
      }
    }
  }

  /** Every review file written or changed between `before` and `after` holds a fragment whose merge was not reported as a success. */
  ghost predicate OnlyFailuresReviewed(e: Env, before: Files, after: Files)
  {
    forall q :: q in after && StartsWith(q, ReviewDir + "/") && (q !in before || after[q] != before[q])
      ==> !e.mergeReport(after[q])
  }

  lemma OnlyFailuresReviewedTrans(e: Env, f0: Files, f1: Files, f2: Files)
    requires OnlyFailuresReviewed(e, f0, f1) && OnlyFailuresReviewed(e, f1, f2)
    ensures OnlyFailuresReviewed(e, f0, f2)
  {
    forall q | q in f2 && StartsWith(q, ReviewDir + "/") && (q !in f0 || f2[q] != f0[q])
      ensures !e.mergeReport(f2[q])
    {
      if q in f1 && f2[q] == f1[q] {
        assert !e.mergeReport(f1[q]);
      }
    }
  }

  /** Every file the chunk loop leaves in the review folder holds a fragment whose merge was not reported as a success. */
  lemma {:induction false} ChunksReviewOnlyFailures(e: Env, st: State, doc: string, chunks: seq<string>, k: nat)
    requires k <= |chunks|
    ensures OnlyFailuresReviewed(e, st.files, ChunksFrom(e, st, doc, chunks, k).files)
    decreases |chunks| - k
  {
    if k < |chunks| {
      var st' := ChunkStep(e, st, doc, chunks, k);
      ChunksReviewOnlyFailures(e, st', doc, chunks, k + 1);
      StepReviewOnlyFailure(e, st, doc, chunks, k);
      OnlyFailuresReviewedTrans(e, st.files, st'.files, ChunksFrom(e, st', doc, chunks, k + 1).files);
    } else {
      assert forall q :: q in st.files ==> st.files[q] == st.files[q];
    }
  }

  /** A review file that chunk `k`'s step writes holds a fragment whose merge was not reported as a success. */
  lemma StepReviewOnlyFailure(e: Env, st: State, doc: string, chunks: seq<string>, k: nat)
    requires k < |chunks|
    ensures OnlyFailuresReviewed(e, st.files, ChunkStep(e, st, doc, chunks, k).files)
  {
    var archive := ChunkFile(FragmentsDir, doc, chunks, k);
    ChunkFileIn(FragmentsDir, doc, chunks, k);
    FoldersDisjoint(archive);
  }

  /** The files of chunk `k` are not written again when no later chunk has the same text. */
  lemma NotWrittenLater(d: string, doc: string, chunks: seq<string>, k: nat)
    requires d in {FragmentsDir, ReviewDir}
    requires k < |chunks|
    requires forall j :: k + 1 <= j < |chunks| ==> chunks[j] != chunks[k]
    ensures !WrittenFrom(doc, chunks, k + 1, ChunkFile(d, doc, chunks, k))
  {
    forall j | k + 1 <= j < |chunks|
      ensures ChunkFile(d, doc, chunks, k) != ChunkFile(FragmentsDir, doc, chunks, j)
      ensures ChunkFile(d, doc, chunks, k) != ChunkFile(ReviewDir, doc, chunks, j)
    {
      ChunkFileDistinct(d, FragmentsDir, doc, chunks, k, j);
      ChunkFileDistinct(d, ReviewDir, doc, chunks, k, j);
    }
  }

  /** As written, chunk `k`'s step writes its fragment to both folders. */
  lemma AsWrittenStepCopies(e: Env, st: State, doc: string, chunks: seq<string>, k: nat)
    requires forall s :: !e.mergeReport(s)
    requires k < |chunks|
    ensures var st' := ChunkStep(e, st, doc, chunks, k);
      && ChunkFile(ReviewDir, doc, chunks, k) in st'.files
      && ChunkFile(FragmentsDir, doc, chunks, k) in st'.files
      && st'.files[ChunkFile(ReviewDir, doc, chunks, k)] == st'.files[ChunkFile(FragmentsDir, doc, chunks, k)]
  {
    ChunkFileDistinct(FragmentsDir, ReviewDir, doc, chunks, k, k);
  }

  /** A file chunk `k` writes survives the rest of the loop when no later chunk has the same text. */
  lemma LastCopySurvives(e: Env, st: State, doc: string, chunks: seq<string>, k: nat, d: string)
    requires d in {FragmentsDir, ReviewDir}
    requires k < |chunks|
    requires forall j :: k + 1 <= j < |chunks| ==> chunks[j] != chunks[k]
    ensures var r := ChunksFrom(e, st, doc, chunks, k + 1);
      var q := ChunkFile(d, doc, chunks, k);
      (q in r.files <==> q in st.files) && (q in st.files ==> r.files[q] == st.files[q])
  {
    NotWrittenLater(d, doc, chunks, k);
    ChunksFrame(e, st, doc, chunks, k + 1, ChunkFile(d, doc, chunks, k));
  }

  /** Chunk `j`'s archive file holds `fragment`, and so does its review file unless the merge of `fragment` is reported as a success. */
  predicate ArchivedAt(e: Env, files: Files, doc: string, chunks: seq<string>, j: nat, fragment: string)
    requires j < |chunks|
  {
    && ChunkFile(FragmentsDir, doc, chunks, j) in files
    && files[ChunkFile(FragmentsDir, doc, chunks, j)] == fragment
    && (!e.mergeReport(fragment) ==>
          && ChunkFile(ReviewDir, doc, chunks, j) in files
          && files[ChunkFile(ReviewDir, doc, chunks, j)] == fragment)
  }

  /**
   * The content the loop leaves: chunk `j`'s archive file holds the reply the
   * LLM gave for chunk `j`, and so does its review file when that reply's
   * merge is not reported as a success, unless a later chunk has the same
   * text (and so the same file names).
   */
  lemma {:induction false} ChunksArchives(e: Env, st: State, doc: string, chunks: seq<string>, k: nat, j: nat)
    requires k <= j < |chunks|
    requires forall i :: j < i < |chunks| ==> chunks[i] != chunks[j]
    ensures ArchivedAt(e, ChunksFrom(e, st, doc, chunks, k).files, doc, chunks, j, FragmentAt(e, st, chunks, k, j))
    decreases j - k
  {
    if k == j {
      ArchivesStep(e, st, doc, chunks, k);
    } else {
      var st' := ChunkStep(e, st, doc, chunks, k);
      ChunksArchives(e, st', doc, chunks, k + 1, j);
      ArchivesCons(e, st, doc, chunks, k, j);
    }
  }

  /** The inductive step of ChunksArchives: chunk `j` is one step further away, and one more prompt has been sent. */
  lemma ArchivesCons(e: Env, st: State, doc: string, chunks: seq<string>, k: nat, j: nat)
    requires k < j < |chunks|
    requires ArchivedAt(e, ChunksFrom(e, ChunkStep(e, st, doc, chunks, k), doc, chunks, k + 1).files, doc, chunks, j,
                        FragmentAt(e, ChunkStep(e, st, doc, chunks, k), chunks, k + 1, j))
    ensures ArchivedAt(e, ChunksFrom(e, st, doc, chunks, k).files, doc, chunks, j, FragmentAt(e, st, chunks, k, j))
  {
    var st' := ChunkStep(e, st, doc, chunks, k);
    var r := ChunksFrom(e, st', doc, chunks, k + 1);
    assert r == ChunksFrom(e, st, doc, chunks, k);
    StepWrites(e, st, doc, chunks, k);
    FragmentAtShift(e, st, st', chunks, k, j);
  }

  /** The base case of ChunksArchives: chunk `k` writes its reply, and no later chunk overwrites it. */
  lemma ArchivesStep(e: Env, st: State, doc: string, chunks: seq<string>, k: nat)
    requires k < |chunks|
    requires forall i :: k < i < |chunks| ==> chunks[i] != chunks[k]
    ensures ArchivedAt(e, ChunksFrom(e, st, doc, chunks, k).files, doc, chunks, k, FragmentAt(e, st, chunks, k, k))
  {
    var st' := ChunkStep(e, st, doc, chunks, k);
    assert ChunksFrom(e, st, doc, chunks, k) == ChunksFrom(e, st', doc, chunks, k + 1);
    ChunkFileDistinct(FragmentsDir, ReviewDir, doc, chunks, k, k);
    LastCopySurvives(e, st', doc, chunks, k, FragmentsDir);
    LastCopySurvives(e, st', doc, chunks, k, ReviewDir);
  }

  /** Chunk `j` has both an archive and a review file in `files`, with the same content. */
  predicate CopiedAt(files: Files, doc: string, chunks: seq<string>, j: nat)
    requires j < |chunks|
  {
    && ChunkFile(ReviewDir, doc, chunks, j) in files
    && ChunkFile(FragmentsDir, doc, chunks, j) in files
    && files[ChunkFile(ReviewDir, doc, chunks, j)] == files[ChunkFile(FragmentsDir, doc, chunks, j)]
  }

  /** Every chunk from `k` on is copied in `files`. */
  ghost predicate AllCopiedFrom(files: Files, doc: string, chunks: seq<string>, k: nat)
  {
    forall j :: k <= j < |chunks| ==> CopiedAt(files, doc, chunks, j)
  }

  /**
   * With the report as written (never truthy), every chunk's fragment is also
   * copied to the review folder, and each review copy equals its archive copy.
   */
  lemma {:induction false} ChunksAsWrittenCopies(e: Env, st: State, doc: string, chunks: seq<string>, k: nat)
    requires forall s :: !e.mergeReport(s)
    requires k <= |chunks|
    ensures AllCopiedFrom(ChunksFrom(e, st, doc, chunks, k).files, doc, chunks, k)
    decreases |chunks| - k
  {
    if k < |chunks| {
      var st' := ChunkStep(e, st, doc, chunks, k);
      var r := ChunksFrom(e, st', doc, chunks, k + 1);
      ChunksAsWrittenCopies(e, st', doc, chunks, k + 1);
      AsWrittenCopiesStep(e, st, doc, chunks, k);
      AllCopiedCons(r.files, doc, chunks, k);
    }
  }

  lemma AllCopiedCons(files: Files, doc: string, chunks: seq<string>, k: nat)
    requires k < |chunks| && CopiedAt(files, doc, chunks, k) && AllCopiedFrom(files, doc, chunks, k + 1)
    ensures AllCopiedFrom(files, doc, chunks, k)
  {
  }

  /** Chunk `k` ends up copied: by its own step, or by a later chunk with the same text and so the same files. */
  lemma AsWrittenCopiesStep(e: Env, st: State, doc: string, chunks: seq<string>, k: nat)
    requires forall s :: !e.mergeReport(s)
    requires k < |chunks|
    requires AllCopiedFrom(ChunksFrom(e, ChunkStep(e, st, doc, chunks, k), doc, chunks, k + 1).files, doc, chunks, k + 1)
    ensures CopiedAt(ChunksFrom(e, ChunkStep(e, st, doc, chunks, k), doc, chunks, k + 1).files, doc, chunks, k)
  {
    var st' := ChunkStep(e, st, doc, chunks, k);
    var r := ChunksFrom(e, st', doc, chunks, k + 1);
    if j :| k + 1 <= j < |chunks| && chunks[j] == chunks[k] {
      assert CopiedAt(r.files, doc, chunks, j);
      ChunkFileSame(ReviewDir, doc, chunks, j, k);
      ChunkFileSame(FragmentsDir, doc, chunks, j, k);
    } else {
      AsWrittenStepCopies(e, st, doc, chunks, k);
      LastCopySurvives(e, st', doc, chunks, k, FragmentsDir);
      LastCopySurvives(e, st', doc, chunks, k, ReviewDir);
    }
  }

  // ---------------------------------------------------------------- the document loop

  /** The `.txt` documents of a listing, each paired with its content. */
  function TextDocs(files: Files, docs: seq<string>): seq<(string, string)>
    requires forall d :: d in docs ==> d in files
    decreases |docs|
  {
    if docs == [] then []
    else if EndsWith(docs[0], ".txt") then [(docs[0], files[docs[0]])] + TextDocs(files, docs[1..])
    else TextDocs(files, docs[1..])
  }

  lemma {:induction false} TextDocsAgree(f1: Files, f2: Files, docs: seq<string>)
    requires forall d :: d in docs ==> d in f1 && d in f2 && f1[d] == f2[d]
    ensures TextDocs(f1, docs) == TextDocs(f2, docs)
    decreases |docs|
  {
    if docs != [] {
      TextDocsAgree(f1, f2, docs[1..]);
    }
  }

  /** The documents with non-empty text, in order: the ones validation is invoked for. */
  function Validations(texts: seq<(string, string)>): seq<string>
  {
    if texts == [] then []
    else (if texts[0].1 != "" then [texts[0].0] else []) + Validations(texts[1..])
  }

  /** Every prompt the loop sends: each document's chunks' prompts, documents in order. */
  function DocPrompts(e: Env, texts: seq<(string, string)>, c: nat): seq<string>
    requires c > 0
  {
    if texts == [] then [] else PromptsFor(e, Splitter.Chunks(texts[0].1, c)) + DocPrompts(e, texts[1..], c)
  }

  /** One document of the loop, for a positive chunk size: its log entries, and the listed files it leaves alone. */
  lemma DocStepLog(e: Env, st: State, d: string, c: int)
    requires c > 0 && d in st.files
    ensures DocStep(e, st, d, c).Some?
    ensures var r := DocStep(e, st, d, c).value;
      && r.validated == st.validated + Validations(TextDocs(st.files, [d]))
      && r.prompts == st.prompts + DocPrompts(e, TextDocs(st.files, [d]), c)
      && forall q :: !StartsWith(q, FragmentsDir + "/") && !StartsWith(q, ReviewDir + "/") && q in st.files ==>
           q in r.files && r.files[q] == st.files[q]
  {
    assert [d][1..] == [];
    if EndsWith(d, ".txt") {
      var chunks := Splitter.Chunks(st.files[d], c);
      ChunksLog(e, st, d, chunks, 0);
      Splitter.ChunksEmpty(st.files[d], c);
      assert chunks[0..] == chunks;
      assert TextDocs(st.files, [d]) == [(d, st.files[d])];
      forall q | !StartsWith(q, FragmentsDir + "/") && !StartsWith(q, ReviewDir + "/") && q in st.files {
        ChunksElsewhere(e, st, d, chunks, q);
      }
    }
  }

  lemma ValidationsAppend(a: seq<(string, string)>, b: seq<(string, string)>)
    ensures Validations(a + b) == Validations(a) + Validations(b)
  {
    if a != [] {
      ValidationsAppend(a[1..], b);
      assert (a + b)[1..] == a[1..] + b;
      assert (a + b)[0] == a[0];
    } else {
      assert a + b == b;
    }
  }

  lemma DocPromptsAppend(e: Env, a: seq<(string, string)>, b: seq<(string, string)>, c: nat)
    requires c > 0
    ensures DocPrompts(e, a + b, c) == DocPrompts(e, a, c) + DocPrompts(e, b, c)
  {
    if a != [] {
      DocPromptsAppend(e, a[1..], b, c);
      assert (a + b)[1..] == a[1..] + b;
      assert (a + b)[0] == a[0];
    } else {
      assert a + b == b;
    }
  }

  lemma TextDocsCons(files: Files, docs: seq<string>)
    requires docs != [] && forall d :: d in docs ==> d in files
    ensures TextDocs(files, docs) == TextDocs(files, [docs[0]]) + TextDocs(files, docs[1..])
  {
    assert [docs[0]][1..] == [];
  }

  /**
   * With a positive chunk size the document loop completes, invokes validation
   * exactly once for each `.txt` document with non-empty text, and sends the
   * prompts of all their chunks in order.
   */
  lemma {:induction false} GenerateLog(e: Env, st: State, docs: seq<string>, c: int)
    requires c > 0
    requires forall d :: d in docs ==> d in st.files && !StartsWith(d, FragmentsDir + "/") && !StartsWith(d, ReviewDir + "/")
    ensures Generate(e, st, docs, c).Some?
    ensures var r := Generate(e, st, docs, c).value;
      && r.validated == st.validated + Validations(TextDocs(st.files, docs))
      && r.prompts == st.prompts + DocPrompts(e, TextDocs(st.files, docs), c)
    decreases |docs|
  {
    if docs != [] {
      var d := docs[0];
      DocStepLog(e, st, d, c);
      var st' := DocStep(e, st, d, c).value;
      var rest := docs[1..];
      assert Generate(e, st, docs, c) == Generate(e, st', rest, c);
      GenerateLog(e, st', rest, c);
      LogsCombine(e, st.files, st'.files, docs, c, st.validated, st.prompts);
    }
  }

  /**
   * The logs of the first document and of the rest, read after the first one
   * ran, make up the log of the listing.
   */
  lemma LogsCombine(e: Env, files: Files, files': Files, docs: seq<string>, c: int, v: seq<string>, p: seq<string>)
    requires c > 0 && docs != []
    requires forall d :: d in docs ==> d in files
    requires forall d :: d in docs[1..] ==> d in files' && files'[d] == files[d]
    ensures (v + Validations(TextDocs(files, [docs[0]]))) + Validations(TextDocs(files', docs[1..]))
         == v + Validations(TextDocs(files, docs))
    ensures (p + DocPrompts(e, TextDocs(files, [docs[0]]), c)) + DocPrompts(e, TextDocs(files', docs[1..]), c)
         == p + DocPrompts(e, TextDocs(files, docs), c)
  {
    var head, tail := TextDocs(files, [docs[0]]), TextDocs(files, docs[1..]);
    TextDocsAgree(files, files', docs[1..]);
    TextDocsCons(files, docs);
    assert TextDocs(files, docs) == head + tail;
    ValidationsAppend(head, tail);
    AppendAssoc(v, Validations(head), Validations(tail));
    DocPromptsAppend(e, head, tail, c);
    AppendAssoc(p, DocPrompts(e, head, c), DocPrompts(e, tail, c));
  }

  lemma AppendAssoc<T>(a: seq<T>, b: seq<T>, c: seq<T>)
    ensures (a + b) + c == a + (b + c)
  {
  }

  /** The document loop writes nothing outside the archive and review folders. */
  lemma {:induction false} GenerateElsewhere(e: Env, st: State, docs: seq<string>, c: int, q: string)
    requires forall d :: d in docs ==> d in st.files
    requires !StartsWith(q, FragmentsDir + "/") && !StartsWith(q, ReviewDir + "/")
    requires Generate(e, st, docs, c).Some?
    ensures var r := Generate(e, st, docs, c).value;
      (q in r.files <==> q in st.files) && (q in st.files ==> r.files[q] == st.files[q])
    decreases |docs|
  {
    if docs != [] {
      var d := docs[0];
      var st' := DocStep(e, st, d, c).value;
      if EndsWith(d, ".txt") {
        ChunksElsewhere(e, st, d, Splitter.SplitText(st.files[d], c).value, q);
      }
      GenerateElsewhere(e, st', docs[1..], c, q);
    }
  }

  /** The loop fails exactly when the chunk size is zero and some listed document is a `.txt` file. */
  lemma {:induction false} GenerateCompletes(e: Env, st: State, docs: seq<string>, c: int)
    requires forall d :: d in docs ==> d in st.files
    ensures Generate(e, st, docs, c).None? <==> c == 0 && exists d :: d in docs && EndsWith(d, ".txt")
    decreases |docs|
  {
    if docs != [] {
      var d := docs[0];
      if !(c == 0 && EndsWith(d, ".txt")) {
        var st' := DocStep(e, st, d, c).value;
        GenerateCompletes(e, st', docs[1..], c);
        assert forall x :: x in docs <==> x == d || x in docs[1..];
      }
    }
  }

  // ---------------------------------------------------------------- the validation call as written

  /**
   * The document loop as written: `ob.validate_ontology_llm()` is not a method
   * of `OntologyBuilder`, so the call after the last chunk of a document raises
   * and ends the run (None).
   */
  function GenerateAsWritten(e: Env, st: State, docs: seq<string>, c: int): (r: Option<State>)
    requires forall d :: d in docs ==> d in st.files
    ensures r.Some? ==> r.value == st
    decreases |docs|
  {
    if docs == [] then Some(st)
    else if EndsWith(docs[0], ".txt") then
      match Splitter.SplitText(st.files[docs[0]], c)
      case None => None
      case Some(chunks) => if chunks == [] then GenerateAsWritten(e, st, docs[1..], c) else None
    else GenerateAsWritten(e, st, docs[1..], c)
  }

  /** As written, with a positive chunk size, a run completes only when every listed `.txt` document is empty. */
  lemma {:induction false} ValidationCallRaises(e: Env, st: State, docs: seq<string>, c: int)
    requires c > 0
    requires forall d :: d in docs ==> d in st.files
    ensures GenerateAsWritten(e, st, docs, c).Some? <==>
      forall d :: d in docs && EndsWith(d, ".txt") ==> st.files[d] == ""
    decreases |docs|
  {
    if docs != [] {
      ValidationCallRaises(e, st, docs[1..], c);
      Splitter.ChunksEmpty(st.files[docs[0]], c);
      assert forall x :: x in docs <==> x == docs[0] || x in docs[1..];
    }
  }
}
