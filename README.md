# Meeting summarizer: a Dafny model of its core

The application transcribes an uploaded meeting recording, summarises the
transcript with a locally hosted chat-completion endpoint, and lets the user ask
follow-up questions grounded in that summary. A separate diarization routine turns
voice-embedding windows and cluster labels into speaker segments.

This project models the logic around those external calls:

- `Text` (`text.dfy`): Python's `str.split()` with no argument, `sep.join(parts)`
  and the decimal rendering of a non-negative integer in an f-string. It proves that
  splitting a space-joined list of words gives the list back, and that rendering a
  number can be read back.
- `Summarize` (`summarize.dfy`, app.py): the transcript is the segment texts joined
  by spaces. `chunk_text` cuts its words into runs of at most `max_words` (800).
  The summary loop sends one request per chunk, in order. A chunk whose response
  cannot be read gets a warning text naming the chunk. The chunk summaries are
  joined by blank lines.
- `Chat` (`chat.dfy`, app.py): the session state as a class. `chatTitles` gains a
  title only when it is non-empty and new. `chatHistory` is seeded once with a
  system message holding the summary. Each question appends a user message, posts
  the last six entries, and appends the answer or an error text.
- `Diarize` (`diarize.dfy`, src/diarize.py): the speaker-count clamp, the loop that
  makes one segment record per (window, label) pair, and the wrapping of load
  errors in a `ValueError`.
- `Endpoint` (`endpoint.dfy`): message, request and reply types. `Wrappers`
  (`wrappers.dfy`): `Option`, `Result`, `Min`, `Max`.

Each call to the endpoint is an input of type `Exchange`. Either `requests.post`
returns and its body reads as `Content(text)` or `Malformed(error)`, or the post
itself raises (`PostRaised`).

Behaviour the model follows as the code has it:

- Only the reading of the response body is inside `try`. An exception from
  `requests.post` itself is not caught. In the summary loop it ends the run
  (`SummarizeChunks` returns `Err`). In a chat turn it leaves the question in the
  history with no answer (`AskQuestion` returns `raised`).
- The chat payload is `history[-6:]`. The system message is in it only while the
  history has at most six entries. After three answered questions, the summary is no
  longer sent with the next question (`SummaryLeavesPayloadOnFourthQuestion`). A
  question whose post raised adds only one entry, so it delays that point. See
  "## Findings".
- The diarization loop does not merge adjacent windows with the same label. Every
  record's text is empty. No code aligns diarization segments with transcript
  segments.
- `chunk_text` with a negative `max_words` returns no chunks (the range is empty).
  With zero it raises; the precondition `maxWords != 0` stands for that.

## Model

| member | source | states |
|---|---|---|
| `Text.Split` | app.py:76 | every word `text.split()` yields is non-empty and free of whitespace |
| `Text.SplitEmptyIffAllSpace` | app.py:76 | a text splits into no words exactly when every character is whitespace |
| `Text.SplitJoin` | app.py:69 | the words of `" ".join(parts)` are the words of the parts, part after part |
| `Text.SplitJoinWords` | app.py:77 | splitting the space-joined form of a list of words gives the list back |
| `Text.JoinLayout` | app.py:104 | `sep.join(parts)` holds every part verbatim, in order, with `sep` between neighbours and nothing after the last |
| `Text.DecimalRoundTrip` | app.py:100 | the decimal digits of a number, read back, give the number (so the rendering is injective) |
| `Summarize.Transcript` | app.py:69 | the transcript's words are the segments' words in segment order, none split or merged across a segment boundary |
| `Summarize.TranscriptHoldsSegment` | app.py:69 | each segment's text stands verbatim in the transcript, followed by one space when another segment follows |
| `Summarize.Groups` | app.py:77 | each run of words has 1 to `size` words, and every run but the last has exactly `size` |
| `Summarize.GroupsCover` | app.py:77 | the runs laid end to end are the word list |
| `Summarize.GroupCount` | app.py:77 | the number of runs is ceil(n / size): zero for no words, else `(count-1)*size < n <= count*size` |
| `Summarize.GroupAt` | app.py:77 | run `k` is the Python slice `words[k*size : k*size+size]`, cut short at the end |
| `Summarize.ChunkText` | app.py:75-77 | a negative `max_words` gives no chunks |
| `Summarize.ChunkWords` | app.py:75-77 | the words of chunk `i` are exactly run `i` of the text's words |
| `Summarize.ChunkSizes` | app.py:75-77 | every chunk has between 1 and `max_words` words; all but the last have exactly `max_words` |
| `Summarize.ChunkCount` | app.py:75-77 | the chunk count is ceil(n / `max_words`) for n words |
| `Summarize.ChunkRoundTrip` | app.py:75-77 | the words of all chunks, in order, are exactly `text.split()` |
| `Summarize.ChunkEmpty` | app.py:75-77 | there are no chunks exactly when the text is empty or all whitespace |
| `Summarize.DefaultChunking` | app.py:75-79 | at 800 words per chunk, 2400 words give 3 full chunks and 2401 give 4, the last with one word |
| `Summarize.SummaryRequest` | app.py:85-95 | a chunk is sent as one user message: the fixed instruction followed by the chunk verbatim, with the model name, temperature 0.3 and 512 tokens at most |
| `Summarize.ChunkError` | app.py:99-100 | the error text for a chunk starts with the warning sign and ends with the error text intact |
| `Summarize.SummaryEntry` | app.py:97-100 | a readable reply is kept verbatim; an unreadable one becomes a text that starts with the warning sign and ends with the error |
| `Summarize.ChunkErrorInjective` | app.py:100 | the error text of a chunk determines the chunk number and the error |
| `Summarize.SummarizeChunks` | app.py:82-101 | one request per chunk, in order, carrying that chunk. Success exactly when no post raises. Then one entry per chunk: the completion text, or the error text for that chunk only. A raising post ends the loop and propagates |
| `Summarize.SummarizeMeeting` | app.py:69-104 | the chunks hold every segment word once, in order. One request per chunk, in order, each carrying its chunk; exactly one per chunk on success. On success the full summary is the per-chunk entries joined by a blank line. On failure the error is that of the last post sent, the first one that raised |
| `Chat.SystemMessage` | app.py:120-125 | the seed message has the system role, and its content is the fixed preamble followed by the summary verbatim |
| `Chat.ReplyError` | app.py:157-158 | the text shown for an unreadable reply starts with the warning sign and ends with the error text intact |
| `Chat.AnswerText` | app.py:155-158 | a readable reply is the answer verbatim; an unreadable one becomes a text that starts with the warning sign and ends with the error |
| `Chat.Payload` | app.py:140 | the payload is the last min(6, n) history entries, in order |
| `Chat.PayloadSystemMessage` | app.py:140 | on a seeded history the payload starts with the system message while the history has at most 6 entries, and holds no system message once it is longer |
| `Chat.IntendedPayload` | app.py:139 | the payload the comment describes: the seed message first, then the most recent entries, min(6, n) messages in all |
| `Chat.IntendedPayloadKeepsSummary` | app.py:139 | with the intended payload every question is sent with the system message first and itself last, in 2 to 6 messages |
| `Chat.PayloadEndsWithQuestion` | app.py:137-140 | the payload of a question has 1 to 6 messages and ends with that question |
| `Chat.SummaryLeavesPayloadOnFourthQuestion` | app.py:139-140 | after three answered questions, the fourth question's payload carries no system message |
| `Chat.Session.constructor` | app.py:32-33 | a new session has no saved titles and no chat history |
| `Chat.Session.DefaultTitle` | app.py:109 | the suggested title is "Meeting " followed by the decimal number of titles plus one |
| `Chat.Session.SaveTitle` | app.py:110-112 | a title is appended exactly when non-empty and not yet saved; titles stay duplicate-free and non-empty, in order |
| `Chat.Session.InitHistory` | app.py:119-125 | an absent history becomes the single system message with the summary; a present one is unchanged (idempotent) |
| `Chat.Session.AskQuestion` | app.py:135-165 | an empty question changes nothing. Otherwise the history gains the user message, then the answer or the error text, with earlier entries unchanged. The request carries the last six entries. A raising post leaves only the user message |
| `Diarize.SpeakerCount` | src/diarize.py:17-19 | with at least one speaker requested, the count asked for is between 1 and the request, and at most max(1, embeddings) |
| `Diarize.SpeakerCountBounds` | src/diarize.py:17-19 | with fewer embeddings than requested speakers the count becomes max(1, embeddings). The request is kept exactly when there are enough embeddings or it is at most 1 |
| `Diarize.SpeakerName` | src/diarize.py:29 | the name is "Speaker " followed by decimal digits that read back as the label plus one |
| `Diarize.SpeakerNameInjective` | src/diarize.py:29 | two labels get the same speaker name exactly when they are equal |
| `Diarize.FirstSpeakerName` | src/diarize.py:29 | label 0 is named "Speaker 1" |
| `Diarize.SegmentOf` | src/diarize.py:26-31 | a record copies its window's times, has an empty text, and a speaker name whose digits read back as the label plus one |
| `Diarize.BuildSegments` | src/diarize.py:24-31 | one record per zipped (window, label) pair, min of the two lengths, in window order, never merged |
| `Diarize.SegmentSpeakers` | src/diarize.py:25-30 | two records share a speaker exactly when their labels are equal; every record's text is empty |
| `Diarize.DiarizeAudio` | src/diarize.py:7-33 | a load failure becomes `ValueError("Error loading audio file: " + error)`. Otherwise the records are built from the windows and the labels clustered with the clamped speaker count |

## Findings

| source | as written | input that shows it | evidently intended | confidence | as-written member | corrected member |
|---|---|---|---|---|---|---|
| app.py:139-140 | `history[-6:]` is posted, so the system message holding the summary drops out once the history has more than six entries | a seeded history of seven entries (the system message and three answered questions), then a fourth question: the payload holds no system message | the comment's "system prompt + last few chat messages": the system message, then the most recent entries | medium, not executed | `Chat.SummaryLeavesPayloadOnFourthQuestion` | `Chat.IntendedPayloadKeepsSummary` |

`Chat.Session.AskQuestion` posts `Payload`, as the code does. `Chat.IntendedPayload` states the behaviour the comment describes.

## Left out

- Streamlit rendering: page configuration, sidebar buttons, `current_chat`, text areas, chat bubbles and widgets (app.py:20-46, 71-72, 105-106, 127-133, 160-162; src/ui_module.py). This is display only.
- Streamlit reruns the whole script on every interaction, so it re-transcribes and re-summarises before each question. The model treats each step as one call.
- Whisper model loading and transcription (app.py:12-18, 68; src/whisper_module.py). These are foreign calls; the transcript segments are an input.
- Temporary-file upload and audio extraction from video (app.py:49-64). This is I/O. `VideoFileClip` is not even imported there.
- The HTTP transport and JSON decoding (app.py:86-99, 143-158). Each call's outcome is an input `Exchange`, one per call in call order. The model does not relate a reply to the request's content.
- A post that never returns. Neither `requests.post` call (app.py:86, 143) sets a `timeout`, so a call can block indefinitely. `Exchange` covers only calls that come back, with a response or an exception.
- Summarize.SummarizeChunks: a completion whose `content` is not a string (JSON `null`, say) would make the blank-line join raise. The model's `Content` always holds a string.
- Summarize.ChunkText: `max_words == 0` makes `range` raise. The precondition excludes it instead of modelling the exception; the application always uses 800.
- Chat.Session.AskQuestion: requires the history to be present. In the script, seeding (app.py:119-125) always runs before a question is handled.
- Voice-encoder preprocessing and embedding, and agglomerative clustering (src/diarize.py:10, 14-15, 21-22). These are foreign numerics. Their results are inputs: the embedding count, the windows, and `cluster`, a function from the requested cluster count to labels.
- Diarize.DiarizeAudio: the clustering library's own exceptions (too few samples for the cluster count, a count below one) are not modelled, because `cluster` is total.
- The shape of the encoder's windows. `Window(start, end)` is taken from the loop's unpacking `for (start, end), label in ...` (src/diarize.py:25). The voice encoder's code is not part of this model. If it returns windows in another shape, for instance `slice` objects, that unpacking raises on the first window, and the model does not capture that.
- `round(start, 2)` and `round(end, 2)` on float times (src/diarize.py:27-28). Times are integers and are copied unchanged.
- The `__main__` demonstration block (src/diarize.py:36-40). It only prints.
- Python's whitespace test is a Unicode database lookup. `Text.IsSpace` lists the same code points explicitly.
