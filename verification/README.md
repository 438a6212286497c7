# Alchemy core, modelled in Dafny

Alchemy is a content-parsing service. Requests become jobs in an in-memory
queue. A pool of workers takes jobs from the FIFO head, routes each to a
document, image, audio/video or web parser, and records the job's lifecycle:
pending, running, then done or failed. Markdown produced by the parsers is
cut into retrieval chunks by a semantic chunker.

This project models four parts of that core and proves properties about them:

- **The job queue** (`worker.dfy`, module `Worker`):
  - the `Job` record and the `JobQueue` object, as classes whose fields the methods update;
  - task routing with its required payload keys and error messages;
  - the execution routine, `run_sync`, `enqueue`, `stop` and the worker loop with its sentinel.
- **The semantic chunker**:
  - the heading scan, written out as the regular expression `^(#{1,3})\s+(.+)$` in multiline mode (`headings.dfy`);
  - the token estimate, the paragraph split and the sliding window with its overlap seed (`window.dfy`);
  - the sectioning and chunk numbering of `chunk` (`chunker.dfy`).
- **The audio/video parser's string rules** (`media.dfy`):
  - `_fmt_time`;
  - the plain and speaker-labelled transcripts;
  - the `full_text` join;
  - the response built from them.
- **The web parser's own logic** (`web.dfy`):
  - address normalisation;
  - the depth-bounded following of at most five links;
  - page merging and chunk accumulation;
  - the filtering done by `parse_many`.

Shared pieces live in `text.dfy`, `schemas.dfy` and `options.dfy`:

- `text.dfy`: Python's `str.strip` over ASCII whitespace, `sep.join`, one-character `split`, and a list map.
- `schemas.dfy`: the `JobStatus`, `DocumentChunk` and `ParseResponse` records.
- `options.dfy`: an `Option` type.

Everything outside the process becomes a parameter:

- the model manager is a value: the set of parsers it has loaded, and a function from task kind and payload to the outcome of a loaded parser's call;
- the crawler is a function from address to crawl reply;
- clock readings are integers passed in;
- transcription and diarization output arrive as sequences of segments and turns, with times as real numbers.

Where the model follows the code rather than the documented intent:

- **`run_sync`**: raises only when `job.error` is a non-empty string. A failure with an empty message returns None.
- **Re-executing a job**: leaves the other branch's field in place (`RerunKeepsError`).
- **`queue_size`**: counts the shutdown sentinels that `stop` puts on the queue.
- **Preamble and heading sections**: kept only when their stripped body is non-empty.
- **`\s+` in the heading pattern**: runs across newlines. A heading line followed by blank lines takes the next line as its label (`HeadingAcrossBlankLines`).
- **A text that is only a heading**: yields no chunk at all.
- **Chunk indices of a multi-page web crawl**: restart at 0 with every page.

## Model

| member | source | states |
|---|---|---|
| Text.Strip | alchemy/utils/chunker.py:26 | `strip()` is empty exactly when the text is blank, and otherwise begins and ends with a non-space character |
| Text.StripInfix | alchemy/utils/chunker.py:39 | `strip()` keeps the infix that starts after the leading whitespace, and only whitespace follows it |
| Text.StripIdempotent | alchemy/utils/chunker.py:77 | stripping twice gives what stripping once gives |
| Text.JoinSnoc | alchemy/parsers/media.py:156 | joining one more element appends the separator and that element |
| Text.SplitJoin | alchemy/parsers/media.py:156 | joining pieces free of the separator character and splitting on it gives the pieces back |
| Text.Map | alchemy/parsers/media.py:151-155 | a list comprehension has one image per element, at the same position |
| Headings.MatchAt | alchemy/utils/chunker.py:60 | the match found at a position is a match of the pattern, and it is the one the backtracking engine prefers (most `#`, then longest `\s+`, then longest `.+`); None exactly when no match starts there |
| Headings.MatchShape | alchemy/utils/chunker.py:60 | any match uses the whole `#` run, a prefix of the whitespace run after it, and ends at the end of the line of its label |
| Headings.FindHeadings | alchemy/utils/chunker.py:61 | `finditer` reports matches in text order that do not overlap |
| Headings.FindHeadingsSound | alchemy/utils/chunker.py:61 | every reported span matches the pattern |
| Headings.FindHeadingsComplete | alchemy/utils/chunker.py:61 | every position where the pattern matches starts or lies inside a reported match |
| Window.EstimateTokens | alchemy/utils/chunker.py:115-118 | `max(1, len // 4)`: at least 1, exactly 1 below four characters, otherwise the floor of a quarter of the length |
| Window.TotalTokensSnoc | alchemy/utils/chunker.py:108 | the running estimate grows by the estimate of each added paragraph |
| Window.Paragraphs | alchemy/utils/chunker.py:85 | every paragraph is non-empty, stripped and free of blank lines, and a non-blank text has at least one |
| Window.SplitKeepsNonBlank | alchemy/utils/chunker.py:85 | splitting on blank-line runs keeps some non-blank piece when the text has a non-space character |
| Window.OverlapLengthFits | alchemy/utils/chunker.py:96-103 | the overlap suffix fits within `chunk_overlap`, and the suffix one paragraph longer does not, so collection stops at the first paragraph that does not fit |
| Window.OverlapSeed | alchemy/utils/chunker.py:96-105 | the reversed-walk loop returns the overlap suffix in original order and its summed estimate |
| Window.FeedAllInv | alchemy/utils/chunker.py:90-108 | the paragraph loop keeps its invariant: the running estimate is the sum over the open window, and the windows so far have the shape below |
| Window.WindowGroupsShape | alchemy/utils/chunker.py:90-111 | the windows are non-empty and drawn from the paragraphs; each later window starts with the seed of the previous one and adds a paragraph; leaving the seeds out gives back the paragraphs in order; a window was flushed only because the next paragraph would push it above `chunk_size`; only a window adding a single paragraph may exceed `chunk_size` |
| Window.SlidingWindowsNonBlank | alchemy/utils/chunker.py:83-113 | a non-blank text gives at least one window, and every window is non-blank |
| Window.SlidingWindow | alchemy/utils/chunker.py:83-113 | the loop computes the window fold over the paragraphs |
| Chunker.HeadingMatches | alchemy/utils/chunker.py:60-61 | the heading matches lie inside the text, in order, without overlap |
| Chunker.HeadingSectionsStripped | alchemy/utils/chunker.py:73-77 | every heading section carries its label and a stripped body |
| Chunker.NonEmptyBodiesFilter | alchemy/utils/chunker.py:78-79 | the kept heading sections are exactly those with a non-empty body, in heading order |
| Chunker.SectionsShape | alchemy/utils/chunker.py:58-81 | with no match anywhere, the whole unstripped text is one untitled section; otherwise every section body is stripped and non-empty, and only the first section (the preamble) may be untitled |
| Chunker.SplitByHeadings | alchemy/utils/chunker.py:58-81 | the method computes the sections |
| Chunker.SectionsLoop | alchemy/utils/chunker.py:66-81 | the preamble test and the loop over the matches compute the sections |
| Chunker.SectionPieces | alchemy/utils/chunker.py:33-54 | every piece of a section carries the section title and an estimate of at least 1 |
| Chunker.SectionChunks | alchemy/utils/chunker.py:33-54 | a section whose estimate is at most `chunk_size`, equality included, contributes exactly one chunk, at the section's offset, with the stripped body, its title and the estimate of the unstripped body; a larger section contributes one chunk per sliding window, consecutively from that offset, each with the stripped window and its estimate |
| Chunker.SectionPiecesNonBlank | alchemy/utils/chunker.py:39-50 | a non-blank section gives at least one piece, and every piece text is stripped and non-empty |
| Chunker.SectionsNonBlank | alchemy/utils/chunker.py:63-81 | every section of a non-blank text has a non-blank body |
| Chunker.SectionsContribute | alchemy/utils/chunker.py:33-54 | every section of a non-blank text yields at least one chunk |
| Chunker.ChunkTextWellFormed | alchemy/utils/chunker.py:25-56 | blank text yields no chunk; chunk k has index k, no page, a stripped non-empty text and an estimate of at least 1 |
| Chunker.SectionsLayout | alchemy/utils/chunker.py:29-54 | the chunks of section i are that section's pieces, in order and under its title; they sit at consecutive positions after those of the previous sections; numbering runs on across sections |
| Chunker.Chunk | alchemy/utils/chunker.py:25-56 | the loop over the sections computes the chunk list |
| Chunker.EmitSection | alchemy/utils/chunker.py:33-54 | one section's chunks are appended with the running index |
| Chunker.HeadingOnlyYieldsNothing | alchemy/utils/chunker.py:63-81 | the text "# a" yields no chunk |
| Chunker.HeadingAcrossBlankLines | alchemy/utils/chunker.py:60 | in "#\n\nfoo" the heading pattern matches across the blank line and the label is "foo" |
| Chunker.LabelSwallowsBody | alchemy/utils/chunker.py:73-79 | so "#\n\nfoo" has no section at all |
| Worker.TaskKind | alchemy/queue/worker.py:110-150 | a recognised task names its kind; otherwise no kind has that name |
| Worker.MissingKey | alchemy/queue/worker.py:113-114 | the first required key absent from the payload; None exactly when all are present |
| Worker.Dispatch | alchemy/queue/worker.py:108-150 | an unknown task raises "Unknown task: <task>"; a known task whose parser is not loaded raises that accessor's "not loaded" message before any key is looked up; a missing key raises with the quoted key |
| Worker.DispatchRoutes | alchemy/queue/worker.py:111-148 | a task whose parser is not loaded fails with that parser's "not loaded" message (audio and video share the media parser); with its parser loaded, a complete payload reaches that parser; document/image/audio/video fail on a missing `content` first, then on `filename`; web fails on a missing `url` |
| Worker.DocumentNotLoaded | alchemy/models/manager.py:44-48 | without the document parser, `parse_document` with an empty payload raises "Document parser not loaded. Start server with --documents flag.", not a KeyError |
| Worker.DispatchUnknown | alchemy/queue/worker.py:149-150 | any other task name fails with "Unknown task: " and the name |
| Worker.Executed | alchemy/queue/worker.py:95-106 | execution ends in a terminal state with `completed_at` set; DONE exactly when the dispatch succeeds; each branch writes only its own field |
| Worker.ExecutedOnce | alchemy/queue/worker.py:95-106 | a fresh job ends DONE with a result and no error, or FAILED with an error and no result |
| Worker.RunSyncOutcome | alchemy/queue/worker.py:65-71 | on a fresh job, success returns the response, failure raises its message, and a failure with an empty message returns None |
| Worker.RerunKeepsError | alchemy/queue/worker.py:95-106 | a job that failed and is then executed again successfully keeps its old error, so `run_sync` raises |
| Worker.Job.constructor | alchemy/queue/worker.py:25-34 | a new job is PENDING with no result, no error and no completion time |
| Worker.Execute | alchemy/queue/worker.py:95-106 | the job's new state is the execution of its dispatch outcome |
| Worker.BeforeSentinel | alchemy/queue/worker.py:82-88 | the jobs ahead of the first sentinel, in FIFO order |
| Worker.SentinelSplit | alchemy/queue/worker.py:82-88 | a queue is its jobs before the first sentinel, that sentinel, and the rest |
| Worker.JobQueue.constructor | alchemy/queue/worker.py:37-44 | an empty registry, queue and worker list, not running |
| Worker.JobQueue.Start | alchemy/queue/worker.py:46-51 | the queue runs and has one more worker per `max_workers`; the registry invariant is kept |
| Worker.JobQueue.Stop | alchemy/queue/worker.py:53-58 | the queue stops running and gets exactly one sentinel per worker, so `queue_size` grows by the number of workers |
| Worker.JobQueue.Enqueue | alchemy/queue/worker.py:61-63 | the job is registered under its id and appended to the FIFO tail; `get_job` finds it and `queue_size` grows by one; nothing else changes |
| Worker.JobQueue.RunSync | alchemy/queue/worker.py:65-71 | the job is registered and executed inline, the queue is untouched, and the answer (`SyncReturn` of its new state) raises `RuntimeError` with the job's error exactly when that error is a non-empty string, and otherwise returns the job's result |
| Worker.JobQueue.GetJob | alchemy/queue/worker.py:73-74 | the job registered under the id, which under the registry invariant carries that id; None exactly when none is registered |
| Worker.JobQueue.WorkerStep | alchemy/queue/worker.py:82-89 | one pass of the worker loop takes the FIFO head: a sentinel ends the loop, a job is executed; nothing happens once the queue is stopped |
| Worker.JobQueue.RunWorker | alchemy/queue/worker.py:80-93 | on a stopped queue the worker returns at once and processes nothing; on a running queue it processes exactly the jobs ahead of the first sentinel, in FIFO order, and returns on that sentinel when there is one, or else is left waiting on the empty queue; `queue_size` shrinks by the jobs taken and the sentinel; each processed job ends terminal with `completed_at` set, and when no job is queued twice each one's new state is the execution of its dispatch outcome from its earlier state |
| Media.Trunc | alchemy/parsers/media.py:242 | `int(x)` truncates toward zero |
| Media.Hms | alchemy/parsers/media.py:242-243 | minutes and seconds lie in [0, 60) and hours·3600 + minutes·60 + seconds is the whole number of seconds |
| Media.Pad2 | alchemy/parsers/media.py:244 | `:02d` writes digits, at least two, exactly two below 100; a negative number keeps its sign |
| Media.Pad2Value | alchemy/parsers/media.py:244 | a padded number reads back as itself |
| Media.DigitsValue | alchemy/parsers/media.py:244 | the decimal digits of a number read back as that number |
| Media.ParseFields | alchemy/parsers/media.py:244 | three digit fields joined by colons read back as hours, minutes and seconds |
| Media.FmtTimeRoundTrip | alchemy/parsers/media.py:240-244 | for a non-negative time the fields are two digits wide (hours at least two) and reading the text back gives the truncated seconds |
| Media.PlainTranscriptLines | alchemy/parsers/media.py:150-156 | with no newline in the segment texts, the transcript splits back into one `[start → end] text` line per segment, in order; no segments give "" |
| Media.BuildPlainTranscript | alchemy/parsers/media.py:150-156 | the loop computes the plain transcript |
| Media.FirstCovering | alchemy/parsers/media.py:163-167 | the first turn whose closed interval contains the time; None exactly when no turn does |
| Media.FindSpeaker | alchemy/parsers/media.py:161-167 | the search with its `break` gives the speaker of the first covering turn, or "UNKNOWN" |
| Media.SpeakerRule | alchemy/parsers/media.py:162-167 | a segment gets a turn's label exactly when that turn is the first to cover its midpoint, and "UNKNOWN" when none does |
| Media.DiarizedTranscriptLines | alchemy/parsers/media.py:158-172 | with no newline in texts and labels, the transcript splits back into one labelled line per segment, each with the speaker of its midpoint |
| Media.BuildDiarizedTranscript | alchemy/parsers/media.py:158-172 | the loop computes the diarized transcript |
| Media.FullTextSnoc | alchemy/parsers/media.py:128 | `full_text` grows by one space and the next stripped segment text per segment |
| Media.TranscriptResponseLines | alchemy/parsers/media.py:120-141 | with no newline in segment texts and speaker labels, the response markdown splits into exactly `num_segments` lines; when the metadata says `diarized` each line carries the speaker of its segment's midpoint, otherwise each is the plain `[start → end] text` line; no segments give "" |
| Web.NormalizeUrl | alchemy/parsers/web.py:61-63 | the address is stripped and starts with one of `http://`, `https://`, `file://`, `raw:`; `https://` is added exactly when none was there |
| Web.NormalizeIdempotent | alchemy/parsers/web.py:61-63 | normalising a normalised address leaves it unchanged |
| Web.PageMarkdown | alchemy/parsers/web.py:91-94 | the page markdown is stripped, and "" when there is none |
| Web.OwnChunks | alchemy/parsers/web.py:97-99 | a page has chunks only with a chunker and a non-empty markdown |
| Web.FollowedLinks | alchemy/parsers/web.py:111-112 | at most five links, none unless `max_depth > 1` and the page has links, and they are the first internal links in order |
| Web.Kept | alchemy/parsers/web.py:120-121 | the positions of the sub-crawls that did not raise, increasing, each success included |
| Web.SuccessesKept | alchemy/parsers/web.py:120-123 | the kept responses are exactly the successful ones, in order |
| Web.Parse | alchemy/parsers/web.py:48-144 | `parse` succeeds exactly when the crawler returns a successful result for the normalised address; a response has that address as source and content type "web" |
| Web.ParseErrors | alchemy/parsers/web.py:83-89 | a crawler exception raises "Failed to crawl <url>: <error>" and a failed crawl raises "Crawl failed for <url>: <message>" |
| Web.ParsePageCount | alchemy/parsers/web.py:110-139 | `num_pages_crawled` is at least 1 and at most 6, and exactly 1 when `max_depth <= 1` or the page has no links |
| Web.ParseShallow | alchemy/parsers/web.py:94-131 | a crawl that follows no links returns the cleaned page markdown and only the page's own chunks |
| Web.ParseMerged | alchemy/parsers/web.py:125-131 | one page gives the root markdown itself; several give a document that starts with the root page's `## url` block |
| Web.MergeSnoc | alchemy/parsers/web.py:127-129 | from two pages on, each further page adds the `---` separator and its block |
| Web.MergeTwo | alchemy/parsers/web.py:127-129 | two pages merge into their two blocks around one separator |
| Web.NoChunkerNoChunks | alchemy/parsers/web.py:97-123 | without a chunker no page, root or followed at any depth, yields chunks |
| Web.ParseChunkIndices | alchemy/parsers/web.py:97-123 | the chunks begin with the root page's own chunks, numbered from 0, and the followed pages' chunks after them are numbered from 0 again |
| Web.EachChunksStartAtZero | alchemy/parsers/web.py:113-123 | every successful sub-crawl that yields chunks numbers its first one 0 |
| Web.CollectPages | alchemy/parsers/web.py:110-123 | the loop appends each successful sub-crawl's page after the root page, and its chunks after the chunks so far, in link order |
| Web.KeepSuccesses | alchemy/parsers/web.py:155-161 | the loop over the gathered results keeps exactly the responses that are not exceptions, in order |
| Web.ParseMany | alchemy/parsers/web.py:146-161 | crawls every address and keeps the responses of those that did not fail |
| Web.ParseManyOrder | alchemy/parsers/web.py:154-161 | the k-th kept response comes from the k-th address whose crawl succeeded, and every such address is kept |

## Left out

- Concurrency:
  - the asyncio tasks, the blocking `Queue.get`, `gather` and the semaphore of `parse_many` run as sequential steps;
  - worker interleavings are not modelled;
  - a worker suspended in `get` while `stop` runs is not modelled;
  - `stop` appends the sentinels but does not wait for the workers.
- `Queue.task_done` and logging have no observable effect on the modelled state and are left out.
- The clock: `created_at` and `completed_at` are integers passed in, not `time.time()`.
- Parser internals:
  - Docling, Qwen2-VL, Whisper, pyannote, ffmpeg and Crawl4AI are inputs (a parse-outcome function, segment and turn sequences, a crawler function);
  - `document.py` and `image.py` are not part of this model;
  - of `manager.py` only the four accessors' "not loaded" errors are modelled; `initialize` and the loading are folded into the set of loaded parsers.
- Worker.Dispatch: the optional payload keys (`extract_tables`, `language`, `diarize`, `max_depth`, ...) are passed through inside the payload rather than unpacked one by one. A value of the wrong type is not modelled.
- ParseResponse fields: `tables`, `images` and `raw` are not modelled. With `raw` go the structured extraction of `parse` (`web.py:101-107`) and the raw segment list of the transcript.
- Media.TranscriptResponse: the language, its probability, the duration and the model name come from the transcriber and its settings, and are left out of the metadata. So is the rounding of the floats.
- Media: segment and turn times are exact real numbers, not binary floats. Keyframe extraction and `round(i / fps)` are not modelled.
- Web.Parse:
  - the crawler's reply depends only on the address, so `css_selector` and the extraction schema are folded into the crawler function;
  - a link entry without `href` is not modelled;
  - `status_code` is an integer, never None.
- Text.Strip: `str.strip` over ASCII whitespace only. Unicode whitespace and case rules are not modelled.
- Headings: the regular expression engine is modelled only for the heading pattern, and its `\s` matches ASCII whitespace only. Python's `\s` also matches Unicode whitespace, so a line such as "#\u00a0Title" is a heading in the source but not in the model.
- Window.Paragraphs: `re.split(r"\n\n+")` is modelled directly, not through a regex engine.
- Worker.JobQueue.RunWorker: the per-job state is stated only when no job object is queued twice. A job queued twice is executed twice, and only "terminal with `completed_at` set" is stated for it.
- Worker.JobQueue.RunWorker: cancellation is not modelled. `_execute` catches `Exception`, which does not include `asyncio.CancelledError`. A cancelled dispatch skips the FAILED branch, the `finally` still stamps `completed_at`, the job stays RUNNING, and the worker leaves its loop (`worker.py:89-90`).
