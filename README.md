# EdKids core, modelled in Dafny

EdKids is a small learning site for children. A Node script loads a markdown knowledge base
into a database. A retrieval tutor endpoint answers a child's question from the retrieved
notes, and falls back to a reply scanned out of those notes when the language model is not
available. Three pages sit on top: the tutor chat with its quick quiz and flashcards, a
single-digit addition practice, and a stories board.

This project models that core and proves properties of the model. It has these modules:

- `Wrappers` holds the `Option` and `Result` types.
- `Seqs` holds generic facts about sequences: taking a prefix, filter-mapping and slicing.
- `Text` models JavaScript's `trim()`, including its whitespace set. It also covers
  lower-casing, decimal printing of a natural number, and `join`.
- `Chunker` models `chunkText` from `scripts/ingest.mjs`. The text is split on runs of two or
  more newlines. The paragraphs are then packed greedily into chunks of at most 900
  characters, joined by a blank line, except that a paragraph longer than that becomes a
  chunk of its own.
- `Ingest` models the rest of the ingestion script:
  - the topic slug and title derived from a file name;
  - the embedding fallback and the chunk rows;
  - an in-memory `Store` class, whose three calls may each fail;
  - `ingestFile` as a method proved against a specification function;
  - the two nested loops of `main`, with the first error ending the run.
- `TutorRag` models `src/app/api/tutor-rag/route.ts`:
  - the "p% of n" answerer, over exact rationals;
  - the flashcard scanner for `Q: … A: …`, proved against a function enumerating every match;
  - the quiz line filter;
  - the fixed fallback texts and the prompt;
  - the branch structure of the POST handler. The search and the completion call are
    parameters to the model.
- `TutorPage` models `src/app/tutor/page.tsx`. Each handler is a pure transition on the
  page state. The `Tutor` class keeps the same state in fields, and its methods are proved to
  perform those transitions while keeping the quiz and card positions inside their lists.
- `AdditionPage` models `src/app/math/addition/page.tsx`: the three built-in questions, the
  picks, the counting loop of `submit`, and the attempt rows it writes.
- `StoriesPage` models `src/app/stories/page.tsx`: the extension and storage path of an
  uploaded picture, and the rows written when a story is posted, liked or reposted.

The model follows the code as written. Three consequences are proved rather than corrected:

- The chunker can emit an empty chunk. The flush inside the loop tests the untrimmed buffer,
  so a paragraph made only of blanks passes the test and trims to "".
- Ingesting the same file twice inserts a second document row, because `upsertDoc` only
  inserts.
- A failing store call keeps the document row written before it.

## Model

| member | source | states |
|---|---|---|
| Text.TrimSlice | src/app/api/tutor-rag/route.ts:87 | `trim()` returns a contiguous slice of its input, and only whitespace is cut before and after that slice |
| Text.TrimIdempotent | src/app/api/tutor-rag/route.ts:50 | trimming an already trimmed string changes nothing |
| Text.TrimEmptyIff | scripts/ingest.mjs:38 | a string trims to "" exactly when every character is whitespace |
| Text.TrimLower | src/app/tutor/page.tsx:99 | trimming and lower-casing commute, so the order in the answer check does not matter |
| Text.NatToString | src/app/stories/page.tsx:64 | prints at least one decimal digit, reads back as the number, and has no leading zero unless the number is 0 |
| Chunker.SplitParagraphs | scripts/ingest.mjs:30 | the split gives at least one piece, and no piece contains two consecutive newlines |
| Chunker.SplitKeepsVisible | scripts/ingest.mjs:30 | the pieces, put together, hold exactly the input's non-whitespace characters, in order |
| Chunker.SplitRoundTrip | scripts/ingest.mjs:30 | putting the matched separators back between the pieces gives the input again; there is one separator fewer than pieces, each is a run of two or more newlines, and each run is maximal: the piece before it does not end with a newline and the piece after does not start with one |
| Chunker.Chunks | scripts/ingest.mjs:27-40 | the definition of `chunkText`'s result: the paragraphs of the split packed in order, then the flush; its meaning is stated by `ChunksTrimmed`, `ChunksKeepVisibleText` and `ChunksAreGroups` |
| Chunker.ChunkText | scripts/ingest.mjs:27-40 | the packing loop and the final flush produce exactly `Chunks(txt, max)`, the greedy packing of the paragraphs |
| Chunker.ChunksTrimmed | scripts/ingest.mjs:32-38 | every chunk is trimmed |
| Chunker.EmptyTextNoChunks | scripts/ingest.mjs:38 | an empty document gives no chunks |
| Chunker.EmptyChunkAfterBlankParagraph | scripts/ingest.mjs:31-33 | a blank paragraph followed by one that does not fit beside it produces the chunks "" and that paragraph trimmed |
| Chunker.OversizedChunkIsOneParagraph | scripts/ingest.mjs:31-33 | a chunk longer than `max` is always a single trimmed paragraph of the text |
| Chunker.ChunksKeepVisibleText | scripts/ingest.mjs:27-40 | the chunks hold all non-whitespace characters of the text, in order, and nothing else |
| Chunker.ChunksAreGroups | scripts/ingest.mjs:30-38 | the paragraphs are partitioned in order into groups; each group yields at most one chunk, its paragraphs joined by blank lines; a group closes only when the next paragraph would overflow it; a group of two or more paragraphs fits in `max` |
| Ingest.BaseName | scripts/ingest.mjs:87 | a name ending in ".md" in any letter case loses exactly those three characters; any other name is kept whole |
| Ingest.TopicSlug | scripts/ingest.mjs:88 | the slug holds only `[a-z0-9-]` and is no longer than the base name |
| Ingest.TopicSlugIdempotent | scripts/ingest.mjs:88 | slugging a slug changes nothing |
| Ingest.SlugOfOneRun | scripts/ingest.mjs:88 | a single run of disallowed characters between two slug-safe parts becomes exactly one hyphen |
| Ingest.Title | scripts/ingest.mjs:89 | the title has the base name's length; each '-' and '_' becomes a space and every other character stays |
| Ingest.TitleIdempotent | scripts/ingest.mjs:89 | a title holds no '-' or '_', so making a title of it changes nothing |
| Ingest.DocForExample | scripts/ingest.mjs:87-89 | "Place-Value_Basics.MD" in subject "math" gives slug "place-value-basics" and title "Place Value Basics" |
| Ingest.EmbedBatch | scripts/ingest.mjs:42-57 | without a key, or when the embedding call fails, the result is one null per chunk; otherwise it is one vector per returned embedding, in order |
| Ingest.ChunkRowsRoundTrip | scripts/ingest.mjs:75-80 | one row per chunk, all for the same document and indexed 0, 1, … in chunk order; reading the contents back gives the chunks |
| Ingest.RowsAfterEmbedding | scripts/ingest.mjs:75-80 | a row's embedding is null without a key or after a failure; otherwise it is the vector at its index, or null past the end of the returned list |
| Ingest.Store.CreateDocRow | scripts/ingest.mjs:59-67 | on failure the call returns the store's message and changes nothing; otherwise it adds the document under the next id and returns that id |
| Ingest.Store.DeleteChunksOf | scripts/ingest.mjs:69-72 | on failure the call returns the message and changes nothing; otherwise every chunk row of that document is removed |
| Ingest.Store.InsertChunkRows | scripts/ingest.mjs:81-82 | on failure the call returns the message and changes nothing; otherwise the rows are appended |
| Ingest.IngestSpec | scripts/ingest.mjs:85-100 | the definition of what `ingestFile` does to the store and returns: the document's slug and title, the chunks of its text, then the three store calls; its meaning is stated by `IngestFailsIff`, `IngestSuccess`, `IngestKeepsInvariant` and `IngestFailureKeepsRows` |
| Ingest.IngestFile | scripts/ingest.mjs:85-100 | `ingestFile` leaves the store and returns what the specification `IngestSpec` gives: the chunks of the file, inserted under a new document row |
| Ingest.IngestEmptyText | scripts/ingest.mjs:92 | a file with no chunks touches nothing and reports 0 inserted |
| Ingest.IngestFailsIff | scripts/ingest.mjs:92-99 | ingestion throws exactly when there are chunks and a store call fails, with that call's message; otherwise it reports the number of chunks |
| Ingest.IngestSuccess | scripts/ingest.mjs:94-99 | on success a fresh document id is used; its rows are exactly the new chunk rows and every other document's rows are unchanged |
| Ingest.IngestKeepsInvariant | scripts/ingest.mjs:94-99 | ids stay below the next id and every chunk row belongs to a stored document, whether ingestion succeeds or fails |
| Ingest.IngestFailureKeepsRows | scripts/ingest.mjs:94-99 | a failed ingestion leaves the chunk rows as they were; the new document row remains unless creating it was what failed |
| Ingest.ReingestDuplicatesDocument | scripts/ingest.mjs:59-67 | ingesting the same file twice yields two document rows with equal subject, slug and title, and the first keeps its chunks |
| Ingest.RunExitCode | scripts/ingest.mjs:102-131 | the script exits with 1 exactly when the database variables are missing or one of the `.md` files of the subject directories, in the order they are visited, fails to ingest; otherwise, including with no `kb/` folder or no subject, it exits with 0 |
| Ingest.SubjectDirs | scripts/ingest.mjs:108 | the subjects are exactly the directories of the `kb/` listing: every subject is a directory of the listing and every directory of the listing is a subject |
| Ingest.SubjectDirsInOrder | scripts/ingest.mjs:108 | the filter keeps listing order: an entry contributes itself, at its own place, exactly when it is a directory |
| Ingest.MdFiles | scripts/ingest.mjs:117 | the files ingested are exactly those whose names end in ".md" (lower case): each one does, and each such file of the listing is ingested |
| Ingest.MdFilesInOrder | scripts/ingest.mjs:117 | the filter keeps listing order: a file contributes itself, at its own place, exactly when its name ends in ".md" |
| Ingest.RunSpec | scripts/ingest.mjs:102-126 | the definition of a run of `main`: the environment check, the missing `kb/` folder, no subject, or the jobs of every subject run in order; its meaning is stated by `RunJobsOutcome`, `NothingToIngest` and `RunExitCode` |
| Ingest.IngestAll | scripts/ingest.mjs:102-126 | `main` leaves the store and reports the outcome that `RunSpec` gives: every `.md` file of every subject, in order, until the first error |
| Ingest.IngestSubject | scripts/ingest.mjs:115-123 | the loop over one subject's files extends the run by that subject's jobs |
| Ingest.IngestNext | scripts/ingest.mjs:119-122 | one file's ingestion extends the run by its job, adding to the total or ending the run with its error |
| Ingest.RunJobsAbortAbsorbs | scripts/ingest.mjs:120 | after an error no further file changes the store or the outcome |
| Ingest.RunJobsSucceedsIff | scripts/ingest.mjs:114-123 | the run succeeds exactly when no file's ingestion fails, and then the total is the sum of the files' chunk counts |
| Ingest.RunJobsFirstFailure | scripts/ingest.mjs:115-123 | when file i is the first to fail, the run reports its message and ends in the state reached just after it |
| Ingest.RunJobsOutcome | scripts/ingest.mjs:114-123 | every run either succeeds with the total chunk count or fails with the message of the first failing file |
| Ingest.NothingToIngest | scripts/ingest.mjs:103-112 | with the database variables missing, no `kb/` folder or no subject directory, the store is untouched; the exit code is 1 only when the variables are missing |
| Ingest.NoSubjectDirs | scripts/ingest.mjs:108 | a listing without directories has no subjects |
| TutorRag.NumberEnd | src/app/api/tutor-rag/route.ts:31 | a number `\d+(?:\.\d+)?` starts at i exactly when a digit does. The numeral is digits, with one '.' at the end `d` of the first digit run only when digits follow it. The match is greedy: no digit follows its end, and it takes the fraction exactly when a '.' and a digit follow the first run |
| TutorRag.Leftmost | src/app/api/tutor-rag/route.ts:31 | the search returns the first position that matches; when it finds none, no position matches |
| TutorRag.Hundredths | src/app/api/tutor-rag/route.ts:36 | `toFixed(2)` prints the hundredth nearest the value, within half a hundredth |
| TutorRag.FormatAnswerRoundTrip | src/app/api/tutor-rag/route.ts:36 | a whole answer prints as digits that read back as the value; any other prints as digits, '.', and two digits that read back as its nearest hundredth |
| TutorRag.PercentOfQuestionToAnswer | src/app/api/tutor-rag/route.ts:30-37 | the definition of the answerer: the leftmost "p% of n" match, p/100·n, printed whole or with two decimals; its meaning is stated by `PercentAnswerMeaning` |
| TutorRag.PercentAnswerMeaning | src/app/api/tutor-rag/route.ts:30-37 | there is an answer exactly when "p% of n" occurs. It comes from the leftmost occurrence and reads back as p/100·n, exactly when that is whole and to within half a hundredth otherwise |
| TutorRag.PercentOfTwoDigits | src/app/api/tutor-rag/route.ts:31-36 | a question shaped "dd% of dd" is answered from exactly those two numerals |
| TutorRag.PercentWholeExample | src/app/api/tutor-rag/route.ts:30-37 | "20% of 50" is answered "10" |
| TutorRag.FormatFractionExample | src/app/api/tutor-rag/route.ts:36 | 33% of 50 prints as "16.50" |
| TutorRag.QaMatchAt | src/app/api/tutor-rag/route.ts:43 | a flashcard match starts at a `Q:` marker, in either case, and ends inside the text |
| TutorRag.NextQa | src/app/api/tutor-rag/route.ts:43-45 | each `exec` moves strictly forward from `lastIndex`; which match it returns is stated by `NextQaLeftmost` |
| TutorRag.NextQaLeftmost | src/app/api/tutor-rag/route.ts:43-45 | `exec` from `lastIndex` returns the match at the first position at or after it where the pattern matches, with no match at any position before; it returns none only when no position from `lastIndex` on matches |
| TutorRag.AnswerEndsAtNewline | src/app/api/tutor-rag/route.ts:43 | an answer holds no newline and ends at a newline or at the end of the text, except for the one-blank answer at the very end |
| TutorRag.ExtractFlashcards | src/app/api/tutor-rag/route.ts:42-47 | the loop collects the first six of all flashcard matches, in order of appearance |
| TutorRag.CardsTrimmed | src/app/api/tutor-rag/route.ts:46 | every card's front and back are trimmed |
| TutorRag.AllCards | src/app/api/tutor-rag/route.ts:43-47 | the definition of every flashcard the global regex finds, each search starting where the previous match ended; its meaning is stated by `ExtractFlashcards`, `CardsTrimmed` and `NoQuestionNoCards` |
| TutorRag.MatchHasAnswerMarker | src/app/api/tutor-rag/route.ts:43 | a flashcard match needs an `A:` marker, in either case, after its `Q:` marker |
| TutorRag.NoQuestionNoCards | src/app/api/tutor-rag/route.ts:43-45 | text in which no `A:` marker follows a `Q:` marker gives no flashcards; in particular text without a `Q:` marker |
| TutorRag.CardExample | src/app/api/tutor-rag/route.ts:42-47 | "Q: 2+2?\nA: 4" gives the single card ("2+2?", "4") |
| TutorRag.QaMatchOfLine | src/app/api/tutor-rag/route.ts:43 | a line `Q: <question> A: <answer>`, with a question free of ':' and blank ends and an answer free of line breaks, is matched at its `Q` with exactly that question and answer, and the match ends after the line's '\n' or at the end of the text |
| TutorRag.TwoCardExample | src/app/api/tutor-rag/route.ts:42-47 | "Q: What is 2+2? A: 4\nQ: Capital of France? A: Paris" gives exactly the cards ("What is 2+2?", "4") and ("Capital of France?", "Paris"), in that order |
| TutorRag.CardsOfTwoMatches | src/app/api/tutor-rag/route.ts:42-47 | two matches in a row with no match after the second give exactly their two cards, in order |
| TutorRag.SplitLines | src/app/api/tutor-rag/route.ts:50 | splitting gives at least one line, and no line holds a newline |
| TutorRag.SplitLinesRoundTrip | src/app/api/tutor-rag/route.ts:50 | the split is lossless: there is one separator fewer than lines, each is "\n" or "\r\n", putting the separators back between the lines gives the text again, and a "\n" separator never follows a line ending in '\r' (that '\r' belongs to the separator) |
| TutorRag.EqualsTailFrom | src/app/api/tutor-rag/route.ts:52 | returns a position where `=.*$` matches (an '=' with no line terminator after it), and no position before it from `i` on matches; it returns the end of the line only when none does |
| TutorRag.StripEquals | src/app/api/tutor-rag/route.ts:52 | `replace(/=.*$/, "")` leaves the prefix of the line up to the first position where `=.*$` matches, and the whole line when none does (in particular when it has no '=') |
| TutorRag.StripEqualsExample | src/app/api/tutor-rag/route.ts:52 | "20% of 50 = ?" becomes "20% of 50 " |
| TutorRag.QuizFromLines | src/app/api/tutor-rag/route.ts:50-55 | the loop keeps the first five quiz items of the lines, in order |
| TutorRag.ExtractQuiz | src/app/api/tutor-rag/route.ts:49-56 | the quiz is the first five items over the text's lines |
| TutorRag.QuizItemsSound | src/app/api/tutor-rag/route.ts:50-53 | every quiz item is a trimmed line of the notes that ends in '?' and contains "% of"; its answer is the percentage answer of the line without its `=` tail |
| TutorRag.QuizOf | src/app/api/tutor-rag/route.ts:50-54 | the definition of one line through the quiz filter: the trimmed line is a candidate when it ends in '?' and contains "% of" in any case, and becomes an item when the line without its `=` tail has an answer; its meaning is stated by `QuizOfSound` and `QuizItemsSound` |
| TutorRag.QuizOfSound | src/app/api/tutor-rag/route.ts:51-53 | an item made from a line has that line, trimmed, as its question, and the computed answer |
| TutorRag.NoPercentNoQuiz | src/app/api/tutor-rag/route.ts:51 | lines without '%' give no quiz |
| TutorRag.RedIsNotAQuestion | src/app/api/tutor-rag/route.ts:51 | "What is red?" is not a quiz question |
| TutorRag.Fallback | src/app/api/tutor-rag/route.ts:39-69 | the definition of the fallback reply: intent "explain", the language's fixed texts, the first five quiz items and the first six flashcards of the notes joined by blank lines; its meaning is stated by `FallbackShape` and `FallbackFromChunks` |
| TutorRag.FallbackFromChunks | src/app/api/tutor-rag/route.ts:39-69 | computes the fallback reply: the notes joined by blank lines, scanned for up to six cards and five quiz items, with the fixed texts of the language |
| TutorRag.FallbackShape | src/app/api/tutor-rag/route.ts:58-68 | intent "explain", two hints and two followups fixed by the language alone, the Urdu texts exactly for "ur", at most five valid quiz questions and six trimmed cards |
| TutorRag.ExplanationsDiffer | src/app/api/tutor-rag/route.ts:58-60 | the Urdu and English explanations differ |
| TutorRag.NoteBlocks | src/app/api/tutor-rag/route.ts:72 | one block per note, the i-th labelled "[Chunk i+1]" |
| TutorRag.NoteBlockRoundTrip | src/app/api/tutor-rag/route.ts:72 | a block reads back as its 1-based number and its note |
| TutorRag.BuildPrompt | src/app/api/tutor-rag/route.ts:71-79 | the definition of the prompt: the policy, the language and grade, the labelled notes joined by blank lines, and the child's words with the instructions; its meaning is stated by `PromptShape` and `NoteBlockRoundTrip` |
| TutorRag.PromptShape | src/app/api/tutor-rag/route.ts:71-79 | three system messages then one user message; the policy comes first; the notes message carries every note under its number |
| TutorRag.QueryOf | src/app/api/tutor-rag/route.ts:87-89 | the search query is never empty or padded, and is "basics" exactly when the child's trimmed input is empty or is "basics" |
| TutorRag.Post | src/app/api/tutor-rag/route.ts:81-163 | the definition of the handler: a 500 with the error's message for a bad body or a failed search, the encouragement when no note is found, otherwise the model's content or the fallback; its meaning is stated by `PostDefaults`, `PostWhenNothingFound` and `PostWhenNotesFound` |
| TutorRag.PostWhenNothingFound | src/app/api/tutor-rag/route.ts:91-101 | with no notes found the handler encourages in the request's language and does not consult the model: intent "encourage", no hints, quiz or cards, one followup |
| TutorRag.PostWhenNotesFound | src/app/api/tutor-rag/route.ts:104-158 | with notes found, the model's content is returned exactly when the completion gives one; otherwise the fallback built from those notes is returned |
| TutorRag.PostDefaults | src/app/api/tutor-rag/route.ts:81-162 | the defaults are language "en", grade "3" and query "basics"; the handler answers 500 exactly when the body or the search fails |
| TutorPage.NextIndex | src/app/tutor/page.tsx:115 | the next position stays in range and wraps from the last to the first |
| TutorPage.PrevIndex | src/app/tutor/page.tsx:204 | the previous position stays in range and wraps from the first to the last |
| TutorPage.PrevUndoesNext | src/app/tutor/page.tsx:204-209 | "previous" undoes "next" |
| TutorPage.NextUndoesPrev | src/app/tutor/page.tsx:204-209 | "next" undoes "previous" |
| TutorPage.AnswerMatches | src/app/tutor/page.tsx:99 | the definition of the quiz check: both sides trimmed and lower-cased, then compared; its meaning is stated by `AnswerIgnoresSpace` and `AnswerIgnoresCase` |
| TutorPage.AnswerIgnoresSpace | src/app/tutor/page.tsx:99 | surrounding whitespace of the child's answer does not change the verdict |
| TutorPage.AnswerIgnoresCase | src/app/tutor/page.tsx:99 | the letter case of the child's answer does not change the verdict |
| TutorPage.FeedbackLine | src/app/tutor/page.tsx:100-107 | the feedback shown is never empty |
| TutorPage.FeedbackTellsVerdict | src/app/tutor/page.tsx:100-107 | in each language the praise and the hint differ |
| TutorPage.ReplyText | src/app/tutor/page.tsx:92 | the bubble starts with the explanation, and "\n\nTry: " plus the first followup follows exactly when there is one |
| TutorPage.Asked | src/app/tutor/page.tsx:64-95 | the transcript gains the user line, then the assistant line, except that a request whose `fetch` or `rsp.json()` rejects adds no assistant line. An error or a rejected request leaves everything else as it was. A reply replaces the quiz and cards (missing lists become empty), returns both to their start, shows the front and clears the answer and feedback. Positions stay in range |
| TutorPage.Answered | src/app/tutor/page.tsx:74-93 | receiving a response keeps the quiz and card positions in range |
| TutorPage.RejectedKeepsUserLine | src/app/tutor/page.tsx:64-74 | when `fetch` or `rsp.json()` rejects, `askTutor` has already added the user line and cleared the input; nothing else changes, and no assistant line follows |
| TutorPage.Sent | src/app/tutor/page.tsx:160-162 | sending changes nothing exactly when the input is blank; otherwise the page is asked the input trimmed, so the transcript gains two lines (one when the request rejects), the first being that trimmed input, which is not empty |
| TutorPage.Checked | src/app/tutor/page.tsx:97-111 | with no quiz nothing changes; otherwise only the feedback changes, to the praise or the hint of the language as the normalized answers match or not |
| TutorPage.Advanced | src/app/tutor/page.tsx:113-119 | with no quiz nothing changes; otherwise the question moves to the next one, wrapping, and the answer and feedback are cleared |
| TutorPage.AdvancedTimesAt | src/app/tutor/page.tsx:115 | k presses of "Next", for k up to the quiz length, move the question k places around the quiz |
| TutorPage.AdvancingCycles | src/app/tutor/page.tsx:113-119 | as many presses of "Next" as there are questions return to the question shown |
| TutorPage.CardBack | src/app/tutor/page.tsx:204 | "Prev" moves to the previous card, wrapping, and shows its front |
| TutorPage.CardForward | src/app/tutor/page.tsx:209 | "Next" moves to the following card, wrapping, and shows its front |
| TutorPage.Flipped | src/app/tutor/page.tsx:194 | a tap turns the card over and changes nothing else |
| TutorPage.CardBackUndoesForward | src/app/tutor/page.tsx:204-209 | "Next" then "Prev" returns to the same card, front up |
| TutorPage.FlipTwice | src/app/tutor/page.tsx:194 | two taps restore the page |
| TutorPage.ReplyWithoutListsClears | src/app/tutor/page.tsx:83-92 | a reply without quiz, flashcards or followups clears the quiz and cards and shows the bare explanation |
| TutorPage.ReplyOnPage | src/app/tutor/page.tsx:81-93 | any reply of the tutor endpoint shows its quiz and cards from their first entries, and its explanation followed by its first followup, if any |
| TutorPage.EncouragementOnPage | src/app/tutor/page.tsx:83-93 | the endpoint's encouragement leaves no quiz or cards on the page and shows the explanation with its one suggestion |
| TutorPage.Tutor.constructor | src/app/tutor/page.tsx:17-31 | the page opens in English with an empty transcript, quiz and cards |
| TutorPage.Tutor.SelectLanguage | src/app/tutor/page.tsx:135 | only the language changes |
| TutorPage.Tutor.TypeInput | src/app/tutor/page.tsx:159 | only the chat input changes |
| TutorPage.Tutor.TypeAnswer | src/app/tutor/page.tsx:178 | only the quiz answer changes |
| TutorPage.Tutor.AskTutor | src/app/tutor/page.tsx:64-95 | performs `Asked` on the fields and keeps the positions in range |
| TutorPage.Tutor.Receive | src/app/tutor/page.tsx:74-93 | performs `Answered` on the fields and keeps the positions in range |
| TutorPage.Tutor.Send | src/app/tutor/page.tsx:160-162 | performs `Sent` on the fields and keeps the positions in range |
| TutorPage.Tutor.CheckAnswer | src/app/tutor/page.tsx:97-111 | performs `Checked` on the fields and keeps the positions in range |
| TutorPage.Tutor.NextQuestion | src/app/tutor/page.tsx:113-119 | performs `Advanced` on the fields and keeps the positions in range |
| TutorPage.Tutor.PrevCard | src/app/tutor/page.tsx:204 | performs `CardBack` on the fields; offered only while a card is shown |
| TutorPage.Tutor.NextCard | src/app/tutor/page.tsx:209 | performs `CardForward` on the fields; offered only while a card is shown |
| TutorPage.Tutor.FlipCard | src/app/tutor/page.tsx:194 | performs `Flipped` on the fields; offered only while a card is shown |
| AdditionPage.AnswersAreOffered | src/app/math/addition/page.tsx:15-19 | every built-in question offers its correct answer among its choices |
| AdditionPage.IdsAreDistinct | src/app/math/addition/page.tsx:15-19 | the built-in questions have distinct ids |
| AdditionPage.Correct | src/app/math/addition/page.tsx:50-53 | the score never exceeds the number of questions |
| AdditionPage.NothingPickedScoresZero | src/app/math/addition/page.tsx:50-53 | with nothing picked the score is 0 |
| AdditionPage.AllRightScoresAll | src/app/math/addition/page.tsx:50-53 | with every question answered correctly the score is the number of questions |
| AdditionPage.ForeignPickKeepsScore | src/app/math/addition/page.tsx:38-53 | a pick under an id no question has leaves the score unchanged |
| AdditionPage.RightPickNeverLowers | src/app/math/addition/page.tsx:38-53 | picking a question's right answer never lowers the score |
| AdditionPage.CountCorrect | src/app/math/addition/page.tsx:50-53 | the counting loop computes the number of questions whose pick equals their answer |
| AdditionPage.AttemptRows | src/app/math/addition/page.tsx:58-64 | one row per question, in order, marked correct exactly when its pick is right, all with the user, "math", "single_digit_addition" and the elapsed seconds |
| AdditionPage.RowsAgreeWithScore | src/app/math/addition/page.tsx:50-64 | as many rows are marked correct as the score shown counts |
| AdditionPage.AdditionPractice.constructor | src/app/math/addition/page.tsx:23-35 | the page opens with the known user, no picks and no result |
| AdditionPage.AdditionPractice.Choose | src/app/math/addition/page.tsx:38-40 | the question's pick is replaced and every other pick is kept |
| AdditionPage.AdditionPractice.Submit | src/app/math/addition/page.tsx:42-73 | without a signed-in user nothing is scored or written. Otherwise the score of all three questions is shown and their attempt rows are written; an insert error yields "Could not save attempts: " and its message |
| StoriesPage.LastDot | src/app/stories/page.tsx:58 | the position of the last '.', or -1 exactly when the name has none |
| StoriesPage.ExtFromName | src/app/stories/page.tsx:57-60 | "" for a name without a dot; otherwise a suffix of the name that starts with its only dot |
| StoriesPage.ExtOfJoined | src/app/stories/page.tsx:57-60 | an extension appended to any name is the extension found |
| StoriesPage.ExtIdempotent | src/app/stories/page.tsx:57-60 | the extension of an extension is itself |
| StoriesPage.StoredExt | src/app/stories/page.tsx:64 | the stored picture always gets an extension |
| StoriesPage.StoragePath | src/app/stories/page.tsx:64 | every picture is stored under "stories/<user id>/" |
| StoriesPage.PathKeepsExtension | src/app/stories/page.tsx:64 | the stored path ends in the file's own extension, or in ".jpg" when the file name has no dot |
| StoriesPage.Upload | src/app/stories/page.tsx:62-74 | an upload yields a path exactly when there is a file, a signed-in user and no storage error, and the path is the storage path of that file |
| StoriesPage.SubjectField | src/app/stories/page.tsx:93 | the subject is stored as null exactly when it is blank; otherwise it is stored as the subject trimmed, which is not empty |
| StoriesPage.CreateStory | src/app/stories/page.tsx:76-106 | without a user nothing is written; a failed upload stops the post. Otherwise the row has the user, the trimmed title, the subject field, no original story, and the picture's path exactly when a file was chosen |
| StoriesPage.NextLikes | src/app/stories/page.tsx:111 | the new count is the count read plus one, a missing count counting as 0 |
| StoriesPage.Repost | src/app/stories/page.tsx:116-126 | a signed-in user's repost copies the title, subject and picture and points back at the story; without a user nothing is written |
| StoriesPage.RepostOfRepost | src/app/stories/page.tsx:116-126 | a repost of a repost keeps the original content but points at the repost, not at the first story |
| StoriesPage.PublicUrl | src/app/stories/page.tsx:128-133 | there is a URL exactly when the path is non-empty and the storage gives a non-empty public URL |

## Left out

- Files, directories, environment variables, the clock and every network service are inputs or parameters of the model:
  - the `kb/` listing with its file texts;
  - whether the database variables and the API key are set;
  - the embedding reply;
  - the failure of each store call;
  - the search result and the completion content;
  - the upload and insert errors;
  - `Date.now()` (`now`, `elapsed`).
- Console output, `alert` texts other than the ones returned, speech recognition and text-to-speech are not modelled.
- `src/lib/retriever.ts` (`hybridSearch`), `src/lib/supabase.ts`, the login page and the root page are not part of this model.
- TutorRag.PostWhenNotesFound: the completion's JSON is not parsed. A missing, failed or unparseable completion is one `None` from the `complete` parameter, and the content is returned as a string.
- TutorRag.Hundredths: numbers are exact rationals, not IEEE doubles. `parseFloat`, the product and `toFixed(2)` are modelled on exact values, rounding half up, so binary rounding effects are not captured.
- Chunker.ChunkText: lengths are counted in characters rather than UTF-16 code units, so characters outside the Basic Multilingual Plane count once instead of twice.
- Text.TrimLower: lower-casing covers ASCII letters only, not full Unicode case folding.
- TutorPage.Asked: a request whose `fetch` or `rsp.json()` rejects is the single case `Rejected`. Which error it raises is not modelled, nor that the page leaves that rejection unhandled.
- TutorPage.Asked: a response whose `error` field is an empty string is a reply on the page, but the model's `Failure` always takes the error branch.
- TutorPage.Tutor.AskTutor: the request is not modelled as awaiting. The user line is added in `AskTutor` and the response arrives through `Receive`, with no other handler in between.
- TutorPage.Checked: a quiz item always has an answer string, so `?? ""` on a missing answer is not modelled.
- The tutor page's subject selector, `listening` flag and microphone are left out. The request body is not modelled; the language only selects the feedback lines.
- TutorRag.ExtractQuiz: the trimming `map` and the loop are split in two. `ExtractQuiz` splits the text and `QuizFromLines` runs the loop, trimming each line as it goes.
- AdditionPage.AdditionPractice.Submit: the `saving` flag and the "Saved!" alert are not modelled, and the page's email is left out.
- StoriesPage.CreateStory: the insert error ("Could not post: "), the form reset, `loading` and the refresh after posting are not modelled. The result is the row to insert.
- StoriesPage.NextLikes: the read and the update of a like are two separate requests. Concurrent likes can lose an update, and the model does not capture that interleaving.
- The stories list, the page's email, `previewUrl` and `onPickFile` are left out. A picked file is modelled by its name.
