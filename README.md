# Ontology generator: a verified model of its core

The Ontology-generator repository turns documents into an OWL/RDF ontology with the help of an LLM:

1. `run_pipeline` first stages the input documents:
   - raw PDFs are rasterised into page images;
   - raw images are copied into `data/images`;
   - raw `.txt` files are copied into `data/processed`;
   - the images are OCR'd into `data/processed`.
2. It splits every processed text into fixed-width chunks.
3. For each chunk, it sends a generation prompt to the LLM and archives the Turtle fragment it gets back. It merges the fragment into one `OntologyBuilder` graph, and copies the fragment to `data/review` when the merge is not reported as a success.
4. It saves the graph as `output/final_ontology.ttl`.

A review mode reloads that file and re-merges the review folder, deleting each entry whose merge succeeds. `visualise.py` draws the final graph with pyvis.

This project models that core in Dafny and proves its properties:

- `splitter.dfy` (`Splitter`): `split_text`.
- `rdf.dfy`:
  - `Wrappers`: `Option`;
  - `Rdf`: terms, triples, the vocabulary used, and Turtle parsing as an abstract partial function.
- `ontology.dfy` (`Ontology`): the class `OntologyBuilder` and its graph.
- `paths.dfy` (`Paths`): the path and string helpers the pipeline relies on:
  - `os.path.basename`;
  - `os.path.splitext`;
  - decimal rendering of indices;
  - `list.index`;
  - fragment file names.
- `prompts.dfy` (`Prompts`): the three prompt builders.
- `pipeline.dfy` (`Pipeline`): `run_pipeline`, in two layers:
  - specification functions, one per phase, over a file system `map<string, string>`;
  - the class `Pipeline`, whose methods run the source's loops over a `files` field and are proved equal to those functions.
- Lemmas about those functions:
  - `pipeline_review.dfy` (`ReviewFacts`);
  - `pipeline_staging.dfy` (`StagingFacts`);
  - `pipeline_generation.dfy` (`GenerationFacts`);
  - `pipeline_run.dfy` (`RunFacts`).
- `visualise.dfy` (`Visualise`):
  - `qname_or_str` and `safe_html_label`;
  - pyvis's `Network` as a log of `add_node` and `add_edge` calls;
  - the class `Visualiser`, with the `added_nodes` set and the three drawing phases as methods.

The world outside the program is a set of parameters of the model: an `Env` in the pipeline, constructor arguments elsewhere.

- **Parsing and serialising Turtle.** `parse(text, n)` is None when rdflib raises. `n` counts the parses the builder made before, which stands for the fresh labels rdflib gives blank nodes.
- **Directory listings.** `load_documents` is a listing function. `Pipeline.Lists` states its law: it lists each file directly in the folder once, and nothing else.
- **Collaborators:**
  - the pages of a PDF;
  - OCR of an image;
  - the LLM (call number, prompt);
  - the qname lookup;
  - Python's `hash`.
- **Merge report.** What `merge_fragment`'s result is taken to mean by its caller is a function of the fragment text, `mergeReport`.
- **Configuration.** `BASE_URI` and `CHUNK_SIZE` are explicit arguments.
- **Generation template.** The template that chunks are filled into is `Env.generation`. The source always fills `Prompts.GenerationTemplate`.

Two places where the code does not do what its callers expect. The model follows the code:

- `merge_fragment` (src/ontology_builder.py:8-15) returns nothing: it catches the parse error and prints it, with no repair step. Its callers at src/pipeline.py:42-44 and src/pipeline.py:134-142 test the result as a success flag.
- src/pipeline.py:147 calls `ob.validate_ontology_llm()`, a method `OntologyBuilder` (src/ontology_builder.py:3-22) does not define.

Both are listed under "## Findings".

## Model

| member | source | states |
|---|---|---|
| Splitter.SplitText | src/splitter.py:1-7 | `max_length == 0` is the only error (`range` raises); a negative width gives no chunks; a positive one gives the fixed-width chunks |
| Splitter.ChunksConcat | src/splitter.py:7 | the chunks, concatenated in order, are the text |
| Splitter.ChunksCount | src/splitter.py:7 | there are exactly ceil(L / C) chunks |
| Splitter.ChunkAt | src/splitter.py:7 | chunk k starts inside the text and is `text[k*C .. min((k+1)*C, L)]` |
| Splitter.ChunkLengths | src/splitter.py:7 | every chunk but the last has length C; the last has length 1..C; none is empty |
| Splitter.ChunksEmpty | src/splitter.py:7 | there are no chunks exactly when the text is empty |
| Ontology.Merged | src/ontology_builder.py:8-15 | a merge loses no triple, adds exactly the parsed ones, and a failed parse changes nothing |
| Ontology.MergeTwiceGround | src/ontology_builder.py:12-13 | for a fragment without blank nodes, merging it twice equals merging it once |
| Ontology.MergeOrderGround | src/ontology_builder.py:12-13 | two fragments without blank nodes merged in either order give the same graph |
| Ontology.BlankNodesBreakIdempotence | src/ontology_builder.py:9-13 | with a parser that relabels blank nodes on each parse, merging a blank-node fragment twice grows the graph |
| Ontology.OntologyBuilder.constructor | src/ontology_builder.py:4-6 | a new builder has an empty graph and keeps `base_uri`, a constant no method changes |
| Ontology.OntologyBuilder.MergeFragment | src/ontology_builder.py:8-15 | the graph becomes the old graph merged with the fragment's parse, untouched when parsing raises; no result is returned |
| Ontology.OntologyBuilder.ParseIntoGraph | src/pipeline.py:27-29 | `ob.graph.parse` outside any `try`: it reports whether the parse succeeded, and the graph gains the parsed triples |
| Ontology.OntologyBuilder.GetCurrentOntologyTtl | src/ontology_builder.py:17-18 | returns the serialisation of the graph, and changes nothing |
| Ontology.OntologyBuilder.SaveToFile | src/ontology_builder.py:20-21 | the file at the path holds the graph's serialisation; every other file, and the graph, are unchanged |
| Paths.AfterLast | src/pipeline.py:69 | the longest suffix without the separator, used for `os.path.basename` |
| Paths.AfterLastAppend | src/pipeline.py:69 | after `a + sep + d`, with no separator in `d`, the suffix is `d` |
| Paths.ChildBasename | src/pipeline.py:69 | a direct child `dir/x` of a folder has base name `x` |
| Paths.StemOfExtension | src/pipeline.py:98 | `os.path.splitext` on `b.ext` keeps `b`, when `b` is not all dots |
| Paths.StemOfDotOnly | src/pipeline.py:98 | a name whose stem would be all dots is kept whole, like a dot file |
| Paths.NatToStringRoundTrip | src/pipeline.py:128 | the decimal digits of an index denote that index |
| Paths.NatToStringInjective | src/pipeline.py:128 | distinct indices render differently |
| Paths.IndexOf | src/pipeline.py:128 | `chunks.index(chunk)` is the first position holding an equal element |
| Paths.FragmentNameInjective | src/pipeline.py:128 | fragment names in one folder determine the document base name and the index |
| Prompts.FillShape | src/prompt_builder.py:1-92 | a prompt is a fixed prefix, then the argument verbatim, then a fixed suffix, and it has the sum of their lengths |
| Prompts.FillInjective | src/prompt_builder.py:1-92 | each builder is injective in its argument |
| Prompts.FillMarked | src/prompt_builder.py:1-92 | when the prefix ends with a marker line, the prompt is the opening text, the marker, the argument verbatim and the suffix, in that order and nothing else |
| Prompts.GenerationTemplateMarks | src/prompt_builder.py:5-7 | the generation prefix ends with the `TEXT:` line and an opening double quote, and the suffix opens with the closing quote before the instructions |
| Prompts.ValidationTemplateMarks | src/prompt_builder.py:71-72 | the validation prefix ends with the `ONTOLOGY:` line and its indentation, and the suffix is a newline and four spaces |
| Prompts.RepairTemplateMarks | src/prompt_builder.py:90-91 | the repair prefix ends with the `FRAGMENT:` line and its indentation, and the suffix is a newline and four spaces |
| Prompts.GenerationPrompt | src/prompt_builder.py:1-55 | the prompt is the fixed opening, the `TEXT:` line ending in an opening quote, the chunk verbatim, then the closing quote and the instructions; so the chunk is the prompt less the fixed text around it |
| Prompts.ValidationPrompt | src/prompt_builder.py:57-73 | the prompt is the fixed task list, the `ONTOLOGY:` line and its indentation, the ontology verbatim, then a newline and four spaces |
| Prompts.RepairPrompt | src/prompt_builder.py:75-92 | the prompt is the fixed task list, the `FRAGMENT:` line and its indentation, the fragment verbatim, then a newline and four spaces |
| Pipeline.SavePages | src/pdfProcessor.py:8-9 | rasterising a PDF loses no file |
| Pipeline.Route | src/pipeline.py:59-85 | the routing loop loses no file |
| Pipeline.Ocr | src/pipeline.py:88-107 | the OCR loop loses no file |
| Pipeline.ChunkStep | src/pipeline.py:119-147 | one chunk loses no file and only extends the prompt and validation logs |
| Pipeline.ChunksFrom | src/pipeline.py:119-147 | the chunk loop loses no file |
| Pipeline.DocStep | src/pipeline.py:110-159 | a completed document step loses no file |
| Pipeline.Generate | src/pipeline.py:110-159 | a completed document loop loses no file and only extends the prompt and validation logs (validation call as intended, see Findings) |
| Pipeline.Pipeline.constructor | src/pipeline.py:12-22 | a pipeline starts from the file system with no prompt sent and no validation invoked |
| Pipeline.Pipeline.ReviewQueue | src/pipeline.py:36-49 | the review loop, run over the `files` field and the builder, ends in the state `Review` specifies |
| Pipeline.Pipeline.RouteRaw | src/pipeline.py:59-85 | the routing loop ends with the files `Route` specifies, and sends nothing |
| Pipeline.Pipeline.RunOcr | src/pipeline.py:88-107 | the OCR loop ends with the files `Ocr` specifies, and sends nothing |
| Pipeline.Pipeline.ProcessChunk | src/pipeline.py:120-147 | one chunk: prompt, LLM call, archive copy, merge, review copy, and validation on the last chunk, as `ChunkStep` specifies |
| Pipeline.Pipeline.ProcessChunks | src/pipeline.py:119-147 | the chunk loop ends in the state `ChunksFrom` specifies |
| Pipeline.Pipeline.GenerateFragments | src/pipeline.py:110-159 | the document loop succeeds exactly when `Generate` does, with its state; on failure nothing changes (validation call as intended, see Findings) |
| Pipeline.Pipeline.RunReview | src/pipeline.py:25-51 | review mode ends with the outcome `ReviewRun` specifies |
| Pipeline.Pipeline.RunGeneration | src/pipeline.py:12-162 | a normal run ends with the outcome `GenerationRun` specifies (validation call as intended, see Findings) |
| Pipeline.Pipeline.Run | src/pipeline.py:12-162 | `run_pipeline` takes the review branch or the normal one, with the outcome `RunSpec` specifies (validation call as intended, see Findings) |
| ReviewFacts.ReviewFiles | src/pipeline.py:36-49 | exactly the listed `.ttl` files whose merge reports success are deleted; every other file keeps its content; no prompt is sent |
| ReviewFacts.MergeAllMembers | src/pipeline.py:36-44 | a triple is in the merged graph iff it was there before or some fragment parsed to it |
| ReviewFacts.ReviewGraph | src/pipeline.py:36-44 | the review loop merges the queue's `.ttl` fragments in listing order, one parse each, whatever gets deleted |
| ReviewFacts.TtlContentsAgree | src/pipeline.py:37-39 | file systems that agree on the queue read the same fragments from it |
| ReviewFacts.ReviewAsWrittenKeepsQueue | src/pipeline.py:42-44 | with `merge_fragment`'s actual result (None), review mode deletes nothing |
| ReviewFacts.ReviewCorrectedDeletesParsed | src/pipeline.py:42-44 | with a success flag, review mode deletes exactly the `.ttl` entries that parse |
| ReviewFacts.ReviewRunTouches | src/pipeline.py:25-51 | review mode sends no prompt and invokes no validation. It fails, changing nothing, exactly when the saved ontology exists and does not parse. It touches only the review entries and the saved ontology |
| ReviewFacts.ReviewRunSaves | src/pipeline.py:25-50 | the saved ontology is the loaded one (or empty) with the queue's fragments merged in |
| StagingFacts.FoldersDisjoint | src/pipeline.py:15-19 | no path lies in two of the raw, images, processed, fragments and review folders |
| StagingFacts.TextIsNoOtherType | src/pipeline.py:60-74 | a `.txt` path is neither a PDF nor an image, so the branches are exclusive |
| StagingFacts.SavePagesFrame | src/pdfProcessor.py:8-9 | rasterising a PDF writes only its page files |
| StagingFacts.PageInImages | src/pdfProcessor.py:9 | every page file lies in the images folder |
| StagingFacts.RouteStepFrame | src/pipeline.py:59-85 | routing one raw file writes only its page files or its images/processed copy |
| StagingFacts.RouteFrame | src/pipeline.py:59-85 | the routing loop changes only the images folder and the processed copies of listed documents |
| StagingFacts.RouteCopiesText | src/pipeline.py:74-81 | every listed `.txt` is copied unchanged to `data/processed/<basename>` |
| StagingFacts.RouteCopiesImages | src/pipeline.py:66-72 | every listed image is copied to `data/images/<basename>`, with its content unless a PDF page of the same run has that name |
| StagingFacts.OcrTargetProcessed | src/pipeline.py:98 | every OCR text file lies in `data/processed` |
| StagingFacts.OcrFrame | src/pipeline.py:88-107 | the OCR loop writes only the `.txt` targets of images with non-empty text: an empty result writes nothing |
| StagingFacts.OcrSplit | src/pipeline.py:88 | the OCR loop over a listing is the loop over its prefix followed by the loop over the rest |
| StagingFacts.OcrWrites | src/pipeline.py:89-101 | an image with non-empty text leaves that text in its target, unless a later image with the same stem overwrites it |
| StagingFacts.OcrTargetName | src/pipeline.py:98 | `data/images/<b>.<ext>` is OCR'd into `data/processed/<b>.txt` |
| GenerationFacts.ChunkFileIn | src/pipeline.py:128-140 | archive and review names lie in their folders |
| GenerationFacts.ChunkFileDistinct | src/pipeline.py:128-140 | chunks with different texts get different file names |
| GenerationFacts.ChunksFrame | src/pipeline.py:119-142 | the chunk loop writes only its archive and review names |
| GenerationFacts.ChunksElsewhere | src/pipeline.py:119-142 | the chunk loop leaves every file outside the two folders unchanged |
| GenerationFacts.ChunksLog | src/pipeline.py:119-147 | one prompt per chunk, in order; one parse per chunk; the document is validated once, after its last chunk, exactly when it has a chunk |
| GenerationFacts.ChunksWrites | src/pipeline.py:128-142 | every chunk's fragment is archived, and each one whose merge is not reported as a success is copied to review |
| GenerationFacts.ChunksArchives | src/pipeline.py:119-142 | chunk j's archive file holds the LLM's reply to chunk j's prompt, and so does its review file when that reply's merge is not reported as a success, unless a later chunk has the same text and so the same names |
| GenerationFacts.ChunksReviewOnlyFailures | src/pipeline.py:134-142 | every review file the loop writes holds a fragment whose merge was not reported as a success |
| GenerationFacts.ChunksAsWrittenCopies | src/pipeline.py:134-142 | with `merge_fragment`'s actual result (None), every fragment is copied to review and equals its archive copy |
| GenerationFacts.DocStepLog | src/pipeline.py:110-147 | one document adds its chunks' prompts, and validates it once when its text is non-empty |
| GenerationFacts.ValidationsAppend | src/pipeline.py:145-147 | the validation log of two document runs is the concatenation of theirs |
| GenerationFacts.DocPromptsAppend | src/pipeline.py:119-121 | the prompt log of two document runs is the concatenation of theirs |
| GenerationFacts.TextDocsAgree | src/pipeline.py:110-113 | file systems that agree on the listing give the same documents |
| GenerationFacts.GenerateLog | src/pipeline.py:110-159 | with a positive chunk size the loop completes, validates each `.txt` with non-empty text exactly once, and sends all their chunks' prompts in order (validation call as intended, see Findings) |
| GenerationFacts.GenerateElsewhere | src/pipeline.py:110-159 | the document loop writes nothing outside the archive and review folders |
| GenerationFacts.GenerateCompletes | src/pipeline.py:115 | the loop fails exactly when the chunk size is 0 and a `.txt` is listed (validation call as intended, see Findings) |
| GenerationFacts.ValidationCallRaises | src/pipeline.py:145-147 | as written, with positive chunk size, the loop gets past the validation call only when every listed `.txt` is empty |
| GenerationFacts.GenerateAsWritten | src/pipeline.py:110-147 | as written, a document loop that gets through leaves the state exactly as it was: no chunk was processed |
| RunFacts.GenerationRunTouches | src/pipeline.py:12-162 | a normal run leaves every file outside its working folders and the saved ontology unchanged, in particular the raw documents |
| RunFacts.ValidationsListed | src/pipeline.py:110-147 | every validated document was in the listing |
| RunFacts.GenerationRunReadsInitialListing | src/pipeline.py:19-113 | with a positive chunk size a normal run completes; every document it validates was in `data/processed` when the run began (validation call as intended, see Findings) |
| RunFacts.SkipStagingReadsFiles | src/pipeline.py:15-147 | with `skip_raw` and `skip_ocr` the run works on the files as they were: validations and prompts follow the processed listing (validation call as intended, see Findings) |
| RunFacts.GenerationRunFails | src/pipeline.py:110-161 | a normal run fails iff the chunk size is 0 and a `.txt` is listed; completed, it has saved the ontology; failed, it has sent no further prompt (validation call as intended, see Findings) |
| RunFacts.ChunkFileNaming | src/pipeline.py:128-140 | two chunks share a file exactly when their texts are equal; a chunk's index is its position exactly when no earlier chunk equals it |
| Visualise.QnameOrStr | visualise.py:16-30 | the qname when found; else the text after the last `#`, else after the last `/` (a suffix free of the separator), else the whole string |
| Visualise.QnameFallback | visualise.py:21-27 | a failed lookup on `ns#name` or `a/b/name` gives `name` |
| Visualise.SafeHtmlLabel | visualise.py:32-34 | the result has no `<`, `>`, `"` or `'` and is no shorter than the text |
| Visualise.SafeHtmlLabelPlain | visualise.py:32-34 | text without special characters is left unchanged |
| Visualise.UnescapeSafeHtmlLabel | visualise.py:32-34 | unescaping gives back the text |
| Visualise.SafeHtmlLabelInjective | visualise.py:32-34 | distinct texts get distinct labels |
| Visualise.FontSize | visualise.py:76 | the font size is `max(12, size div 4)`, never below 12 |
| Visualise.FontSizes | visualise.py:76-151 | the sizes 80, 60, 30 and 36 give fonts 20, 15, 12 and 12 |
| Visualise.Network.constructor | visualise.py:45 | a new network has no nodes and no edges |
| Visualise.Network.AddNode | visualise.py:77-78 | pyvis appends a node unless it already holds its id |
| Visualise.Network.AddEdge | visualise.py:127-152 | pyvis demands both ends be nodes, and a directed network appends every edge |
| Visualise.ClassNodes | visualise.py:82-88 | exactly the URI subjects typed `rdfs:Class` or `owl:Class` |
| Visualise.UriSubjects | visualise.py:96-97 | exactly the URIs that are subjects of some triple |
| Visualise.EdgeColor | visualise.py:127-152 | `#ffb703` iff the object is a literal or a URI whose predicate is declared `owl:DatatypeProperty`; `#219ebc` for other URIs; `#999999` iff a blank node |
| Visualise.Visualiser.constructor | visualise.py:69 | no node is added yet |
| Visualise.Visualiser.AddNodeIfMissing | visualise.py:71-79 | each id is added at most once: a repeated id changes nothing, so the first label, colour and size win |
| Visualise.Visualiser.AddClassNodes | visualise.py:90-93 | the nodes added are exactly the size-80 boxes of the classes, in an order that lists each class once |
| Visualise.Visualiser.AddSubjectNodes | visualise.py:96-102 | every URI subject gets a node; the new ones are size-60 boxes |
| Visualise.Visualiser.ObjectId | visualise.py:120-149 | a URI object's end id is its string; a literal's is `lit:` then decimal digits, a blank node's `node:` then decimal digits |
| Visualise.Visualiser.SubjectNode | visualise.py:114-118 | the subject's node has id `str(s)` and is a size-60 `#8ecae6` box; a URI subject gets the same box as in step 2, a blank node its escaped string |
| Visualise.Visualiser.ObjectNode | visualise.py:120-151 | the object's node has the edge's end id; a URI gets the size-60 box, a literal a size-30 `#fefae0` ellipse, a blank node a size-36 `#e0e0e0` ellipse, each labelled with its escaped string |
| Visualise.Visualiser.WalkNodesFrom | visualise.py:105-152 | every node the walk appends is the subject or object node of a walked triple |
| Visualise.Visualiser.DrawTriple | visualise.py:110-152 | the nodes appended are exactly the subject's node if its id is missing, then the object's node if its id is still missing; both ids join `added_nodes`; then exactly one edge, from `str(s)` to the object's id, is added |
| Visualise.Visualiser.WalkTriples | visualise.py:105-152 | each triple except a class declaration is walked once; the nodes appended are exactly those its triples draw in walk order, `added_nodes` gains exactly their end ids, and the edges are one per triple in walk order, with both ends already nodes |
| Visualise.Visualiser.Draw | visualise.py:69-152 | node ids are distinct; the first nodes are the boxes of the classes, each class once; every later node is a URI subject's size-60 box or the subject or object node of a walked triple; every URI subject has a node; edges are one per non-declaration triple, and every edge's ends are nodes |

## Left out

- OCR (`src/ocr.py`), the LLM client (`src/llm.py`) and PDF rasterisation (`src/pdfProcessor.py`). These are network calls, image encoding and pdf2image, so they are functions in `Env`. The model knows only their results: page texts, OCR text, fragment text.
- `run_llm`: `src/llm.py` defines only `generate_ontology_fragment`, so the import at `src/pipeline.py:5` would fail. The model takes the LLM as the oracle `llm(callIndex, prompt)`.
- `src/document_loader.py`: it becomes the listing function with the law `Pipeline.Lists`. Whether a listed entry is a regular file, and the order of the listing, are not modelled.
- `src/responseLogger.py`, `run.py`, logging, `print` and reading environment variables are not modelled. `BASE_URI` and `CHUNK_SIZE` are arguments, with no parse of an integer from text.
- `os.makedirs`: folders are not modelled, only the files in them. A missing folder therefore never raises: `os.listdir` in `load_documents` (src/document_loader.py:5, called at src/pipeline.py:15, 19, 34 and 88), saving pages under `./data/images` (src/pdfProcessor.py:9) and `save_to_file` without an `output/` folder (src/pipeline.py:50 and 161) always succeed in the model.
- Reading a file with `open(..., 'r', encoding='utf-8')` (src/pipeline.py:28, 38 and 112) translates `\r\n` and `\r` to `\n` and raises `UnicodeDecodeError` on bytes that are not UTF-8. The model reads a file's stored string unchanged and a read never fails, so for text with `\r\n` line ends its chunk boundaries differ from the source's.
- Exceptions raised by the OCR, the LLM client or pdf2image end the run in the source. Their oracles in `Env` always return a value, so the model has no run that ends that way.
- The prompt log `prompts` and the validation log `validated` are separate sequences. The model orders prompts among themselves and validations among themselves, but does not state that a document's validation comes after its chunks' prompts.
- The Turtle grammar and rdflib's serializer are abstract functions. Blank-node relabelling stands behind the parse counter. The idempotence and order lemmas therefore assume ground triples and `Rdf.ParserLaw`.
- Pipeline.Pipeline.constructor: the generation template is the field `Env.generation`, and the constructor does not require that it equal `Prompts.GenerationTemplate`, the only template `build_generation_prompt` fills. Reasoning about the long fixed text inside the class's proofs is too costly, so the link is stated only here.
- Pipeline.Pipeline.ProcessChunk: the result of the missing `validate_ontology_llm` is not modelled. The proved loop records the validation call as an entry in `validated` and leaves the graph unchanged. Whatever such a method would do to the graph is not modelled, because no definition of it exists in src/ontology_builder.py.
- Pipeline.PageName: the PDF pages are saved under `./data/images/...` and listed as `data/images/...`. The model identifies the two spellings.
- Ontology.OntologyBuilder.ParseIntoGraph: it does not model what rdflib leaves in the graph when the review-mode load raises, because the run ends there.
- Visualise.Visualiser.ObjectId: Python's per-process randomised `hash` is a parameter `hash`. Two literals whose hashes collide share a node, as in the source.
- `visualise.py` beyond the graph walk is not modelled:
  - reading and parsing the file, and the missing file check;
  - the pyvis options JSON, physics and `write_html`;
  - the `__main__` block.
- Visualise.Visualiser.Draw: the order in which rdflib yields sets and triples is arbitrary (`:|` choice). The class order and the walk order are therefore ghost sequences, not rdflib's.

## Findings

| source | as written | input that shows it | evidently intended | confidence | as-written member | corrected member |
|---|---|---|---|---|---|---|
| src/ontology_builder.py:8-15 with src/pipeline.py:42-44, 134-142 | `merge_fragment` returns nothing on both paths, but its callers test the result as a success flag | any fragment that parses, e.g. an empty Turtle document: it is merged, yet review mode keeps it in `data/review` and the normal run copies it there | the merge reports success when the fragment parsed; only failed fragments go to review and successful ones leave it | not executed | ReviewFacts.ReviewAsWrittenKeepsQueue, GenerationFacts.ChunksAsWrittenCopies | ReviewFacts.ReviewCorrectedDeletesParsed, GenerationFacts.ChunksReviewOnlyFailures |
| src/pipeline.py:145-147 | `ob.validate_ontology_llm()` is called, but `OntologyBuilder` has no such method | a `data/processed/a.txt` with text `x` and chunk size 1000: after the first chunk's merge the call raises `AttributeError` and ends the run before the ontology is saved | each document is validated once after its last chunk, and the run goes on to save the ontology | not executed | GenerationFacts.ValidationCallRaises | GenerationFacts.GenerateLog, GenerationFacts.GenerateCompletes |
