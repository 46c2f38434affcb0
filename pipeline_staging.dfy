/**
 * What the raw-routing loop and the OCR loop of `run_pipeline` write: which
 * keys of the file system each may change, and what the copied and extracted
 * files hold.
 */
module StagingFacts {
  import opened Paths
  import opened Pipeline

  lemma PrefixOfConcat(a: string, b: string)
    ensures StartsWith(a + b, a)
  {
    assert (a + b)[..|a|] == a;
  }

  /** Two prefixes that differ at some position cannot both start one string. */
  lemma PrefixesDiffer(k: string, a: string, b: string, i: nat)
    requires i < |a| && i < |b| && a[i] != b[i]
    requires StartsWith(k, a)
    ensures !StartsWith(k, b)
  {
    assert k[..|a|][i] == k[i];
  }

  /** The folders the pipeline writes to are pairwise disjoint. */
  lemma FoldersDisjoint(k: string)
    ensures StartsWith(k, RawDir + "/") ==>
      && !StartsWith(k, ImagesDir + "/") && !StartsWith(k, ProcessedDir + "/")
      && !StartsWith(k, FragmentsDir + "/") && !StartsWith(k, ReviewDir + "/")
    ensures StartsWith(k, ImagesDir + "/") ==>
      && !StartsWith(k, ProcessedDir + "/") && !StartsWith(k, FragmentsDir + "/") && !StartsWith(k, ReviewDir + "/")
    ensures StartsWith(k, ProcessedDir + "/") ==> !StartsWith(k, FragmentsDir + "/") && !StartsWith(k, ReviewDir + "/")
    ensures StartsWith(k, FragmentsDir + "/") ==> !StartsWith(k, ReviewDir + "/")
  {
    if StartsWith(k, RawDir + "/") {
      PrefixesDiffer(k, RawDir + "/", ImagesDir + "/", 5);
      PrefixesDiffer(k, RawDir + "/", ProcessedDir + "/", 5);
      PrefixesDiffer(k, RawDir + "/", FragmentsDir + "/", 5);
      PrefixesDiffer(k, RawDir + "/", ReviewDir + "/", 6);
    }
    if StartsWith(k, ImagesDir + "/") {
      PrefixesDiffer(k, ImagesDir + "/", ProcessedDir + "/", 5);
      PrefixesDiffer(k, ImagesDir + "/", FragmentsDir + "/", 5);
      PrefixesDiffer(k, ImagesDir + "/", ReviewDir + "/", 5);
    }
    if StartsWith(k, ProcessedDir + "/") {
      PrefixesDiffer(k, ProcessedDir + "/", FragmentsDir + "/", 5);
      PrefixesDiffer(k, ProcessedDir + "/", ReviewDir + "/", 5);
    }
    if StartsWith(k, FragmentsDir + "/") {
      PrefixesDiffer(k, FragmentsDir + "/", ReviewDir + "/", 5);
    }
  }

  /** A `.txt` name never ends in `.pdf`, `.png`, `.jpg` or `.jpeg`, so it reaches the text branch. */
  lemma TextIsNoOtherType(p: string)
    requires EndsWith(p, ".txt")
    ensures !EndsWith(p, ".pdf") && !IsImage(p)
  {
    assert p[|p| - 1] == 't';
  }

  /** Besides the page files `PageName(base, 1..)`, saving the pages of a PDF leaves every file as it was. */
  lemma {:induction false} SavePagesFrame(files: Files, base: string, pages: seq<string>, k: string)
    requires forall n :: 1 <= n <= |pages| ==> k != PageName(base, n)
    ensures var r := SavePages(files, base, pages);
      (k in r <==> k in files) && (k in files ==> r[k] == files[k])
    decreases |pages|
  {
    if pages != [] {
      SavePagesFrame(files, base, pages[..|pages| - 1], k);
    }
  }

  /** Every page file is in the images folder. */
  lemma PageInImages(base: string, n: nat)
    ensures StartsWith(PageName(base, n), ImagesDir + "/")
  {
    var tail := base + "page_" + NatToString(n) + ".jpg";
    assert PageName(base, n) == (ImagesDir + "/") + tail;
    PrefixOfConcat(ImagesDir + "/", tail);
  }

  /**
   * What one raw document can change: files in the images folder, and
   * `data/processed/<basename>`. Every other file keeps its presence and content.
   */
  lemma RouteStepFrame(e: Env, files: Files, p: string, k: string)
    requires p in files
    requires !StartsWith(k, ImagesDir + "/") && k != ProcessedDir + "/" + Basename(p)
    ensures var r := RouteStep(e, files, p);
      (k in r <==> k in files) && (k in files ==> r[k] == files[k])
  {
    if EndsWith(p, ".pdf") {
      forall n | 1 <= n <= |e.pages(files[p])| ensures k != PageName(Basename(p), n) {
        PageInImages(Basename(p), n);
      }
      SavePagesFrame(files, Basename(p), e.pages(files[p]), k);
    } else if IsImage(p) {
      PrefixOfConcat(ImagesDir + "/", Basename(p));
    }
  }

  /** Routing never writes into the raw folder. */
  lemma RawUntouched(e: Env, files: Files, p0: string, p: string)
    requires p0 in files && p in files && StartsWith(p, RawDir + "/")
    ensures var r := RouteStep(e, files, p0); p in r && r[p] == files[p]
  {
    FoldersDisjoint(p);
    var k := ProcessedDir + "/" + Basename(p0);
    PrefixOfConcat(ProcessedDir + "/", Basename(p0));
    assert StartsWith(k, ProcessedDir + "/");
    assert p != k;
    RouteStepFrame(e, files, p0, p);
  }

  /** The routing loop changes only the images folder and the processed copies of listed documents. */
  lemma {:induction false} RouteFrame(e: Env, files: Files, raw: seq<string>, k: string)
    requires forall p :: p in raw ==> p in files
    requires !StartsWith(k, ImagesDir + "/")
    requires forall p :: p in raw ==> k != ProcessedDir + "/" + Basename(p)
    ensures var r := Route(e, files, raw);
      (k in r <==> k in files) && (k in files ==> r[k] == files[k])
    decreases |raw|
  {
    if raw != [] {
      RouteStepFrame(e, files, raw[0], k);
      RouteFrame(e, RouteStep(e, files, raw[0]), raw[1..], k);
    }
  }

  /** Distinct files of one folder have distinct base names. */
  lemma ChildrenBasenames(dir: string, p: string, q: string)
    requires IsChild(dir, p) && IsChild(dir, q) && p != q
    ensures Basename(p) != Basename(q)
  {
    ChildBasename(dir, p);
    ChildBasename(dir, q);
  }

  lemma DistinctTail<T>(s: seq<T>)
    requires |s| > 0 && Distinct(s)
    ensures Distinct(s[1..]) && s[0] !in s[1..]
  {
  }

  /**
   * Every listed `.txt` document ends up copied, content unchanged, to
   * `data/processed/<basename>`.
   */
  lemma {:induction false} RouteCopiesText(e: Env, files: Files, raw: seq<string>)
    requires Distinct(raw)
    requires forall p :: p in raw ==> p in files && IsChild(RawDir, p)
    ensures var r := Route(e, files, raw);
      forall p :: p in raw && EndsWith(p, ".txt") ==>
        ProcessedDir + "/" + Basename(p) in r && r[ProcessedDir + "/" + Basename(p)] == files[p]
    decreases |raw|
  {
    if raw != [] {
      var p0 := raw[0];
      var rest := raw[1..];
      var files' := RouteStep(e, files, p0);
      DistinctTail(raw);
      forall p | p in rest ensures p in files' && files'[p] == files[p] {
        RawUntouched(e, files, p0, p);
      }
      RouteCopiesText(e, files', rest);
      if EndsWith(p0, ".txt") {
        TextIsNoOtherType(p0);
        var k := ProcessedDir + "/" + Basename(p0);
        PrefixOfConcat(ProcessedDir + "/", Basename(p0));
        FoldersDisjoint(k);
        forall p | p in rest ensures k != ProcessedDir + "/" + Basename(p) {
          ChildrenBasenames(RawDir, p0, p);
          assert Basename(p0) == k[|ProcessedDir + "/"|..];
        }
        RouteFrame(e, files', rest, k);
      }
    }
  }

  /**
   * Every listed image ends up copied to `data/images/<basename>` with its
   * content, unless a PDF listed in the same run saves a page under that name.
   */
  lemma {:induction false} RouteCopiesImages(e: Env, files: Files, raw: seq<string>)
    requires Distinct(raw)
    requires forall p :: p in raw ==> p in files && IsChild(RawDir, p)
    ensures var r := Route(e, files, raw);
      forall p :: p in raw && IsImage(p) && !EndsWith(p, ".pdf") ==>
        && ImagesDir + "/" + Basename(p) in r
        && ((forall q, n :: q in raw && EndsWith(q, ".pdf") && 1 <= n ==> PageName(Basename(q), n) != ImagesDir + "/" + Basename(p))
            ==> r[ImagesDir + "/" + Basename(p)] == files[p])
    decreases |raw|
  {
    if raw != [] {
      var p0 := raw[0];
      var rest := raw[1..];
      var files' := RouteStep(e, files, p0);
      DistinctTail(raw);
      forall p | p in rest ensures p in files' && files'[p] == files[p] {
        RawUntouched(e, files, p0, p);
      }
      RouteCopiesImages(e, files', rest);
      if IsImage(p0) && !EndsWith(p0, ".pdf") {
        var k := ImagesDir + "/" + Basename(p0);
        if forall q, n :: q in raw && EndsWith(q, ".pdf") && 1 <= n ==> PageName(Basename(q), n) != k {
          RouteImageKept(e, files', rest, k, p0);
        }
      }
    }
  }

  /** A listed image's copy survives the rest of the loop when no later page or image takes its name. */
  lemma {:induction false} RouteImageKept(e: Env, files: Files, raw: seq<string>, k: string, p0: string)
    requires forall p :: p in raw ==> p in files && IsChild(RawDir, p) && p != p0
    requires IsChild(RawDir, p0) && k == ImagesDir + "/" + Basename(p0)
    requires forall q, n :: q in raw && EndsWith(q, ".pdf") && 1 <= n ==> PageName(Basename(q), n) != k
    ensures var r := Route(e, files, raw);
      (k in r <==> k in files) && (k in files ==> r[k] == files[k])
    decreases |raw|
  {
    if raw != [] {
      var p := raw[0];
      var files' := RouteStep(e, files, p);
      assert (k in files' <==> k in files) && (k in files ==> files'[k] == files[k]) by {
        if EndsWith(p, ".pdf") {
          SavePagesFrame(files, Basename(p), e.pages(files[p]), k);
        } else if IsImage(p) {
          ChildrenBasenames(RawDir, p0, p);
          assert Basename(p0) == k[|ImagesDir + "/"|..];
        } else if EndsWith(p, ".txt") {
          PrefixOfConcat(ImagesDir + "/", Basename(p0));
          PrefixOfConcat(ProcessedDir + "/", Basename(p));
          FoldersDisjoint(k);
        }
      }
      forall q | q in raw[1..] ensures q in files' {
      }
      RouteImageKept(e, files', raw[1..], k, p0);
    }
  }

  // ---------------------------------------------------------------- OCR

  /** The text OCR gives for a listed image, read from the file system before the loop. */
  function OcrText(e: Env, files: Files, p: string): string
    requires p in files
  {
    e.ocr(p, files[p])
  }

  /** An image whose OCR text is non-empty: the ones the loop writes a text file for. */
  predicate Writes(e: Env, files: Files, p: string)
    requires p in files
  {
    IsImage(p) && OcrText(e, files, p) != ""
  }

  lemma OcrTargetProcessed(p: string)
    ensures StartsWith(OcrTarget(p), ProcessedDir + "/")
  {
    assert OcrTarget(p) == (ProcessedDir + "/") + (Stem(Basename(p)) + ".txt");
    PrefixOfConcat(ProcessedDir + "/", Stem(Basename(p)) + ".txt");
  }

  /** OCR never writes into the images folder. */
  lemma ImageUntouched(e: Env, files: Files, p0: string, p: string)
    requires p0 in files && p in files && StartsWith(p, ImagesDir + "/")
    ensures var r := OcrStep(e, files, p0); p in r && r[p] == files[p]
  {
    OcrTargetProcessed(p0);
    FoldersDisjoint(p);
    assert p != OcrTarget(p0);
  }

  /**
   * The OCR loop writes nothing but `data/processed/<stem>.txt` for listed images
   * with non-empty text: an empty OCR result and a non-image entry write no file.
   */
  lemma {:induction false} OcrFrame(e: Env, files: Files, images: seq<string>, k: string)
    requires forall p :: p in images ==> p in files && IsChild(ImagesDir, p)
    requires forall p :: p in images && Writes(e, files, p) ==> k != OcrTarget(p)
    ensures var r := Ocr(e, files, images);
      (k in r <==> k in files) && (k in files ==> r[k] == files[k])
    decreases |images|
  {
    if images != [] {
      var p0 := images[0];
      var files' := OcrStep(e, files, p0);
      forall p | p in images[1..] ensures p in files' && files'[p] == files[p] {
        ImageUntouched(e, files, p0, p);
      }
      OcrFrame(e, files', images[1..], k);
    }
  }

  /** The first listed image's text survives when no later image with non-empty text has its target. */
  lemma OcrFirstWrite(e: Env, files: Files, images: seq<string>)
    requires forall p :: p in images ==> p in files && IsChild(ImagesDir, p)
    requires |images| > 0 && Writes(e, files, images[0])
    requires forall j :: 0 < j < |images| && Writes(e, files, images[j]) ==> OcrTarget(images[j]) != OcrTarget(images[0])
    ensures var r := Ocr(e, files, images);
      OcrTarget(images[0]) in r && r[OcrTarget(images[0])] == OcrText(e, files, images[0])
  {
    var p0 := images[0];
    var files' := OcrStep(e, files, p0);
    var rest := images[1..];
    forall p | p in rest ensures p in files' && files'[p] == files[p] {
      ImageUntouched(e, files, p0, p);
    }
    forall p | p in rest && Writes(e, files', p) ensures OcrTarget(p0) != OcrTarget(p) {
      var j :| 0 <= j < |rest| && rest[j] == p;
      WritesSameContent(e, files, files', p);
      assert images[j + 1] == p;
    }
    OcrStepWritesTarget(e, files, p0);
    OcrFrame(e, files', rest, OcrTarget(p0));
  }

  lemma WritesSameContent(e: Env, files: Files, files': Files, p: string)
    requires p in files && p in files' && files'[p] == files[p]
    ensures Writes(e, files', p) == Writes(e, files, p)
  {
  }

  lemma OcrStepWritesTarget(e: Env, files: Files, p: string)
    requires p in files && Writes(e, files, p)
    ensures var r := OcrStep(e, files, p); OcrTarget(p) in r && r[OcrTarget(p)] == OcrText(e, files, p)
  {
  }

  /** The OCR loop over a listing is the loop over a prefix followed by the loop over the rest. */
  lemma {:induction false} OcrSplit(e: Env, files: Files, images: seq<string>, i: nat)
    requires forall p :: p in images ==> p in files
    requires i <= |images|
    ensures forall p :: p in images[i..] ==> p in Ocr(e, files, images[..i])
    ensures Ocr(e, files, images) == Ocr(e, Ocr(e, files, images[..i]), images[i..])
    decreases i
  {
    if i > 0 {
      var files' := OcrStep(e, files, images[0]);
      OcrSplit(e, files', images[1..], i - 1);
      assert images[1..][..i - 1] == images[..i][1..];
      assert images[1..][i - 1..] == images[i..];
    } else {
      assert images[..0] == [];
    }
  }

  /**
   * Each listed image with non-empty text has that text in its `.txt` target,
   * unless a later image with the same stem overwrites it.
   */
  lemma OcrWrites(e: Env, files: Files, images: seq<string>, i: nat)
    requires forall p :: p in images ==> p in files && IsChild(ImagesDir, p)
    requires i < |images| && Writes(e, files, images[i])
    requires forall j :: i < j < |images| && Writes(e, files, images[j]) ==> OcrTarget(images[j]) != OcrTarget(images[i])
    ensures var r := Ocr(e, files, images);
      OcrTarget(images[i]) in r && r[OcrTarget(images[i])] == OcrText(e, files, images[i])
  {
    var before := images[..i];
    var after := images[i..];
    OcrSplit(e, files, images, i);
    var mid := Ocr(e, files, before);
    forall p | p in images ensures p in mid && mid[p] == files[p] {
      FoldersDisjoint(p);
      forall q | q in before && Writes(e, files, q) ensures p != OcrTarget(q) {
        OcrTargetProcessed(q);
      }
      OcrFrame(e, files, before, p);
    }
    forall j | 0 < j < |after| && Writes(e, mid, after[j]) ensures OcrTarget(after[j]) != OcrTarget(after[0]) {
      assert after[j] == images[i + j];
    }
    OcrFirstWrite(e, mid, after);
  }

  /** `data/images/<b>.<ext>` gives `data/processed/<b>.txt` when `b` is not all dots. */
  lemma OcrTargetName(b: string, ext: string)
    requires '/' !in b && '/' !in ext && '.' !in ext
    requires exists k :: 0 <= k < |b| && b[k] != '.'
    ensures OcrTarget(ImagesDir + "/" + b + "." + ext) == ProcessedDir + "/" + b + ".txt"
  {
    var name := b + "." + ext;
    assert '/' !in name;
    var p := ImagesDir + "/" + b + "." + ext;
    assert p == ImagesDir + ['/'] + name;
    AfterLastAppend(ImagesDir, '/', name);
    assert Basename(p) == name;
    StemOfExtension(b, ext);
    assert Stem(Basename(p)) == b;
  }
}
