/** Turning transcription segments into a meeting summary (app.py): the transcript
    is the segment texts joined by spaces, `chunk_text` cuts its words into runs of
    at most `max_words`, each run is summarised by one request to the endpoint, and
    the per-chunk summaries are joined by blank lines. */
module Summarize {
  import opened Wrappers
  import opened Text
  import opened Endpoint

  /** One segment returned by the speech-to-text engine; only its text is read.
      Times are kept as integers because nothing here computes with them. */
  datatype TranscriptSegment = TranscriptSegment(start: int, end: int, text: string)

  /** Default `max_words` of `chunk_text`, the value the application uses. */
  const DefaultMaxWords: nat := 800

  /** `temperature` of every summarisation request. */
  const SummaryTemperature: real := 0.3

  const SummaryInstruction: string :=
    "Summarize the following meeting transcript chunk clearly and professionally:\n\n"

  /** Separator between chunk summaries in the full summary: one blank line. */
  const SummarySeparator: string := "\n\n"

  // ---------------------------------------------------------------------------
  // Transcript

  function SegmentTexts(segments: seq<TranscriptSegment>): (texts: seq<string>)
    ensures |texts| == |segments|
    ensures forall i :: 0 <= i < |segments| ==> texts[i] == segments[i].text
  {
    seq(|segments|, i requires 0 <= i < |segments| => segments[i].text)
  }

  /** `" ".join([segment.text for segment in segments])`. Its words are the words of
      the segments, segment after segment, so a word is never split or merged across
      a segment boundary. */
  function Transcript(segments: seq<TranscriptSegment>): (transcript: string)
    ensures Split(transcript) == WordsOf(SegmentTexts(segments))
  {
    SplitJoin(SegmentTexts(segments));
    Join(" ", SegmentTexts(segments))
  }

  /** Each segment's text stands verbatim in the transcript, in segment order, with
      a single space before the next segment's text. */
  lemma TranscriptHoldsSegment(segments: seq<TranscriptSegment>, i: nat)
    requires i < |segments|
    ensures var t, o := Transcript(segments), PartOffset(" ", SegmentTexts(segments), i);
      && o + |segments[i].text| <= |t|
      && t[o..o + |segments[i].text|] == segments[i].text
      && (i + 1 < |segments| ==> o + |segments[i].text| < |t| && t[o + |segments[i].text|] == ' ')
  {
    var texts := SegmentTexts(segments);
    JoinLayout(" ", texts, i);
    if i + 1 < |segments| {
      var t, e := Transcript(segments), PartOffset(" ", texts, i) + |texts[i]|;
      assert t[e..e + 1] == " ";
      assert t[e] == t[e..e + 1][0];
    }
  }

  // ---------------------------------------------------------------------------
  // chunk_text

  /** The runs `words[i:i + size]` for `i` in `range(0, len(words), size)`. */
  function Groups(words: seq<string>, size: nat): (groups: seq<seq<string>>)
    requires size > 0
    ensures forall i :: 0 <= i < |groups| ==> 1 <= |groups[i]| <= size
    ensures forall i :: 0 <= i < |groups| - 1 ==> |groups[i]| == size
    decreases |words|
  {
    if words == [] then []
    else if |words| <= size then [words]
    else [words[..size]] + Groups(words[size..], size)
  }

  /** The runs, laid end to end, are the original list. */
  lemma {:induction false} GroupsCover(words: seq<string>, size: nat)
    requires size > 0
    ensures Flatten(Groups(words, size)) == words
    decreases |words|
  {
    var groups := Groups(words, size);
    if words == [] {
    } else if |words| <= size {
      assert Flatten(groups) == words + Flatten([]);
    } else {
      var rest := Groups(words[size..], size);
      GroupsCover(words[size..], size);
      assert groups[1..] == rest;
      assert Flatten(groups) == words[..size] + Flatten(rest);
      assert words[..size] + words[size..] == words;
    }
  }

  /** The arithmetic of one step of `GroupAt`: run `k` of the list starts `size`
      words after run `k - 1` of its tail. */
  lemma RunStep(n: int, size: int, k: int, j: int)
    requires size > 0 && k >= 1 && j == (k - 1) * size && j < n - size
    ensures k * size == j + size && k * size < n
    ensures size + Min(n - size, j + size) == Min(n, k * size + size)
  {
  }

  /** A slice of a suffix is the slice of the whole list shifted by the suffix's start. */
  lemma SliceOfSuffix<T>(xs: seq<T>, d: nat, j: nat, e: nat)
    requires d <= |xs| && j <= e <= |xs| - d
    ensures xs[d..][j..e] == xs[d + j..d + e]
  {
  }

  /** There are ceil(n / size) runs of a list of n words: the least count whose
      runs of `size` words cover all n of them. */
  lemma {:induction false} GroupCount(words: seq<string>, size: nat)
    requires size > 0
    ensures var count, n := |Groups(words, size)|, |words|;
      && (n == 0 ==> count == 0)
      && (n > 0 ==> (count - 1) * size < n <= count * size)
    decreases |words|
  {
    if |words| > size {
      GroupCount(words[size..], size);
      var count := |Groups(words, size)|;
      assert (count - 1) * size + size == count * size;
    }
  }

  /** Run `k` is exactly the slice `words[k * size : k * size + size]`, cut short at
      the end of the list as a Python slice is. */
  lemma {:induction false} GroupAt(words: seq<string>, size: nat, k: nat)
    requires size > 0
    requires k < |Groups(words, size)|
    ensures k * size < |words|
    ensures Groups(words, size)[k] == words[k * size..Min(|words|, k * size + size)]
    decreases |words|
  {
    var n := |words|;
    if n <= size {
      assert k == 0 && k * size == 0;
    } else if k == 0 {
      assert k * size == 0 && Min(n, k * size + size) == size;
      assert Groups(words, size)[0] == words[..size];
    } else {
      var j := (k - 1) * size;
      GroupAt(words[size..], size, k - 1);
      RunStep(n, size, k, j);
      GroupAtStep(words, size, k, j, Min(n - size, j + size), k * size, Min(n, k * size + size));
    }
  }

  /** Past the first run, the runs of a list are the runs of its tail. */
  lemma GroupsTail(words: seq<string>, size: nat, k: nat)
    requires 0 < size < |words|
    requires 1 <= k < |Groups(words, size)|
    ensures k - 1 < |Groups(words[size..], size)|
    ensures Groups(words, size)[k] == Groups(words[size..], size)[k - 1]
  {
    var tail := Groups(words[size..], size);
    assert Groups(words, size) == [words[..size]] + tail;
  }

  /** The inductive step of `GroupAt`: run `k` is run `k - 1` of the list's tail,
      which spans `j..e` of the tail, moved `size` words along to `start..stop`. */
  lemma GroupAtStep(words: seq<string>, size: nat, k: nat, j: nat, e: nat, start: nat, stop: nat)
    requires 0 < size < |words|
    requires 1 <= k < |Groups(words, size)|
    requires j <= e <= |words| - size
    requires start == size + j && stop == size + e
    requires Groups(words[size..], size)[k - 1] == words[size..][j..e]
    ensures Groups(words, size)[k] == words[start..stop]
  {
    GroupsTail(words, size, k);
    SliceOfSuffix(words, size, j, e);
  }

  /** Every run holds words when the list does. */
  lemma {:induction false} GroupsOfWords(words: seq<string>, size: nat)
    requires size > 0
    requires AllWords(words)
    ensures forall i :: 0 <= i < |Groups(words, size)| ==> AllWords(Groups(words, size)[i])
    decreases |words|
  {
    if |words| > size {
      GroupsOfWords(words[size..], size);
      var groups := Groups(words, size);
      forall i | 0 <= i < |groups| ensures AllWords(groups[i]) {
        if i == 0 {
          assert forall j :: 0 <= j < size ==> groups[0][j] == words[j];
        } else {
          assert groups[i] == Groups(words[size..], size)[i - 1];
        }
      }
    }
  }

  /** `chunk_text(text, max_words)`. A zero `max_words` makes `range` raise, which
      the precondition excludes; a negative one makes the range empty. */
  function ChunkText(text: string, maxWords: int): (chunks: seq<string>)
    requires maxWords != 0
    ensures maxWords < 0 ==> chunks == []
  {
    if maxWords < 0 then []
    else
      var groups := Groups(Split(text), maxWords);
      seq(|groups|, i requires 0 <= i < |groups| => Join(" ", groups[i]))
  }

  /** The words of chunk `i` are run `i` of the text's words. */
  lemma ChunkWords(text: string, maxWords: nat, i: nat)
    requires maxWords > 0
    requires i < |ChunkText(text, maxWords)|
    ensures i < |Groups(Split(text), maxWords)|
    ensures Split(ChunkText(text, maxWords)[i]) == Groups(Split(text), maxWords)[i]
  {
    var groups := Groups(Split(text), maxWords);
    GroupsOfWords(Split(text), maxWords);
    SplitJoinWords(groups[i]);
  }

  /** Every chunk holds between 1 and `maxWords` words, and every chunk but the last
      holds exactly `maxWords`. */
  lemma ChunkSizes(text: string, maxWords: nat)
    requires maxWords > 0
    ensures var chunks := ChunkText(text, maxWords);
      && (forall i :: 0 <= i < |chunks| ==> 1 <= |Split(chunks[i])| <= maxWords)
      && (forall i :: 0 <= i < |chunks| - 1 ==> |Split(chunks[i])| == maxWords)
  {
    var chunks := ChunkText(text, maxWords);
    forall i | 0 <= i < |chunks|
      ensures 1 <= |Split(chunks[i])| <= maxWords
      ensures i < |chunks| - 1 ==> |Split(chunks[i])| == maxWords
    {
      ChunkWords(text, maxWords, i);
    }
  }

  /** There are ceil(n / maxWords) chunks of a text of n words. */
  lemma ChunkCount(text: string, maxWords: nat)
    requires maxWords > 0
    ensures var count, n := |ChunkText(text, maxWords)|, |Split(text)|;
      && (n == 0 ==> count == 0)
      && (n > 0 ==> (count - 1) * maxWords < n <= count * maxWords)
  {
    var words := Split(text);
    assert |ChunkText(text, maxWords)| == |Groups(words, maxWords)|;
    GroupCount(words, maxWords);
  }

  lemma {:induction false} WordsOfJoinedGroups(groups: seq<seq<string>>)
    requires forall i :: 0 <= i < |groups| ==> AllWords(groups[i])
    ensures WordsOf(seq(|groups|, i requires 0 <= i < |groups| => Join(" ", groups[i]))) == Flatten(groups)
  {
    var joined := seq(|groups|, i requires 0 <= i < |groups| => Join(" ", groups[i]));
    if groups != [] {
      SplitJoinWords(groups[0]);
      WordsOfJoinedGroups(groups[1..]);
      assert joined[1..] == seq(|groups[1..]|, i requires 0 <= i < |groups[1..]| => Join(" ", groups[1..][i]));
    }
  }

  /** Splitting every chunk and concatenating the results gives back `text.split()`:
      no word is lost, duplicated or reordered. */
  lemma ChunkRoundTrip(text: string, maxWords: nat)
    requires maxWords > 0
    ensures WordsOf(ChunkText(text, maxWords)) == Split(text)
  {
    GroupsOfWords(Split(text), maxWords);
    WordsOfJoinedGroups(Groups(Split(text), maxWords));
    GroupsCover(Split(text), maxWords);
  }

  /** An empty or all-whitespace text yields no chunk, and only such a text does. */
  lemma ChunkEmpty(text: string, maxWords: nat)
    requires maxWords > 0
    ensures ChunkText(text, maxWords) == [] <==> forall i :: 0 <= i < |text| ==> IsSpace(text[i])
  {
    SplitEmptyIffAllSpace(text);
    ChunkCount(text, maxWords);
  }

  /** The application's setting: 2400 words give three chunks of 800 words, 2401
      words give four, the last holding one word. */
  lemma DefaultChunking(text: string)
    requires |Split(text)| == 2400 || |Split(text)| == 2401
    ensures var chunks := ChunkText(text, DefaultMaxWords);
      && (|Split(text)| == 2400 ==> |chunks| == 3)
      && (|Split(text)| == 2401 ==> |chunks| == 4 && |Split(chunks[3])| == 1)
      && (forall i :: 0 <= i < 3 ==> |Split(chunks[i])| == 800)
  {
    var chunks := ChunkText(text, DefaultMaxWords);
    ChunkCount(text, DefaultMaxWords);
    ChunkSizes(text, DefaultMaxWords);
    if |Split(text)| == 2401 {
      ChunkWords(text, DefaultMaxWords, 3);
      GroupAt(Split(text), DefaultMaxWords, 3);
    } else {
      ChunkWords(text, DefaultMaxWords, 2);
      GroupAt(Split(text), DefaultMaxWords, 2);
    }
  }

  // ---------------------------------------------------------------------------
  // Per-chunk summaries

  /** The single-message request that asks for the summary of one chunk. */
  function SummaryRequest(chunk: string): (request: Request)
    ensures request.model == ModelName && request.temperature == SummaryTemperature && request.maxTokens == MaxTokens
    ensures |request.messages| == 1 && request.messages[0].role == User
    ensures var prompt := request.messages[0].content;
      && |SummaryInstruction| <= |prompt|
      && prompt[..|SummaryInstruction|] == SummaryInstruction
      && prompt[|SummaryInstruction|..] == chunk
  {
    Request(ModelName, [Message(User, SummaryInstruction + chunk)], SummaryTemperature, MaxTokens)
  }

  /** The text shown in place of the summary of chunk `i` (counted from 0) when its
      response cannot be read. */
  function ChunkError(i: nat, error: string): (text: string)
    ensures |WarningSign| + |error| < |text|
    ensures text[..|WarningSign|] == WarningSign
    ensures text[|text| - |error|..] == error
  {
    WarningSign + " Error generating summary for chunk " + Decimal(i + 1) + ": " + error
  }

  /** The summary recorded for chunk `i`: the completion text, or the error text. */
  function SummaryEntry(i: nat, reply: Reply): (entry: string)
    ensures reply.Content? ==> entry == reply.text
    ensures reply.Malformed? ==>
      && |WarningSign| + |reply.error| < |entry|
      && entry[..|WarningSign|] == WarningSign
      && entry[|entry| - |reply.error|..] == reply.error
  {
    match reply
    case Content(text) => text
    case Malformed(error) => ChunkError(i, error)
  }

  /** The error text is a fixed lead, the chunk number, and the error after ": ". */
  lemma ChunkErrorParts(i: nat, error: string)
    ensures ChunkError(i, error)
      == (WarningSign + " Error generating summary for chunk ") + (Decimal(i + 1) + (": " + error))
  {
  }

  /** An error text names its chunk (1-based) and keeps the decoding error intact:
      distinct chunks or distinct errors give distinct texts. */
  lemma ChunkErrorInjective(i: nat, j: nat, e1: string, e2: string)
    requires ChunkError(i, e1) == ChunkError(j, e2)
    ensures i == j && e1 == e2
  {
    var p := WarningSign + " Error generating summary for chunk ";
    ChunkErrorParts(i, e1);
    ChunkErrorParts(j, e2);
    PrefixCancel(p, Decimal(i + 1) + (": " + e1), Decimal(j + 1) + (": " + e2));
    DecimalThenTextInjective(i + 1, j + 1, ": " + e1, ": " + e2);
    PrefixCancel(": ", e1, e2);
  }

  /** The summary loop of app.py: one request per chunk, in chunk order, each chunk's
      entry made from its own response only. A request that raises ends the loop
      and the exception propagates; `responses[i]` is what the `i`-th call gives. */
  method SummarizeChunks(chunks: seq<string>, responses: seq<Exchange>)
    returns (sent: seq<Request>, outcome: Result<seq<string>, string>)
    requires |responses| == |chunks|
    ensures |sent| <= |chunks|
    ensures forall i :: 0 <= i < |sent| ==> sent[i] == SummaryRequest(chunks[i])
    ensures outcome.Ok? <==> forall i :: 0 <= i < |chunks| ==> responses[i].Responded?
    ensures outcome.Ok? ==>
      && |sent| == |chunks|
      && |outcome.value| == |chunks|
      && forall i :: 0 <= i < |chunks| ==> outcome.value[i] == SummaryEntry(i, responses[i].reply)
    ensures outcome.Err? ==>
      && 0 < |sent|
      && responses[|sent| - 1] == PostRaised(outcome.error)
      && forall i :: 0 <= i < |sent| - 1 ==> responses[i].Responded?
  {
    var summaries: seq<string> := [];
    sent := [];
    var i := 0;
    while i < |chunks|
      invariant 0 <= i <= |chunks|
      invariant |sent| == i && |summaries| == i
      invariant forall j :: 0 <= j < i ==> sent[j] == SummaryRequest(chunks[j])
      invariant forall j :: 0 <= j < i ==> responses[j].Responded?
      invariant forall j :: 0 <= j < i ==> summaries[j] == SummaryEntry(j, responses[j].reply)
    {
      var posted := sent;
      sent := posted + [SummaryRequest(chunks[i])];
      forall j | 0 <= j <= i ensures sent[j] == SummaryRequest(chunks[j]) {
        if j < i {
          assert sent[j] == posted[j];
        }
      }
      var response := responses[i];
      if response.PostRaised? {
        outcome := Err(response.error);
        return;
      }
      var summaryText: string;
      if response.reply.Content? {
        summaryText := response.reply.text;
      } else {
        summaryText := ChunkError(i, response.reply.error);
      }
      assert summaryText == SummaryEntry(i, response.reply);
      var done := summaries;
      summaries := done + [summaryText];
      forall j | 0 <= j <= i ensures summaries[j] == SummaryEntry(j, responses[j].reply) {
        if j < i {
          assert summaries[j] == done[j];
        }
      }
      i := i + 1;
    }
    outcome := Ok(summaries);
  }

  /** The whole summarisation step of app.py: transcript, chunks, one request per
      chunk, and the summaries joined by blank lines. On success every word of
      every segment reaches exactly one chunk, in order. */
  method SummarizeMeeting(segments: seq<TranscriptSegment>, responses: seq<Exchange>)
    returns (transcript: string, chunks: seq<string>, sent: seq<Request>, fullSummary: Result<string, string>)
    requires |responses| == |ChunkText(Transcript(segments), DefaultMaxWords)|
    ensures transcript == Transcript(segments)
    ensures chunks == ChunkText(transcript, DefaultMaxWords)
    ensures WordsOf(chunks) == WordsOf(SegmentTexts(segments))
    ensures |sent| <= |chunks| && forall i :: 0 <= i < |sent| ==> sent[i] == SummaryRequest(chunks[i])
    ensures fullSummary.Ok? <==> forall i :: 0 <= i < |chunks| ==> responses[i].Responded?
    ensures fullSummary.Ok? ==> |sent| == |chunks|
    ensures fullSummary.Err? ==>
      && 0 < |sent|
      && responses[|sent| - 1] == PostRaised(fullSummary.error)
      && forall i :: 0 <= i < |sent| - 1 ==> responses[i].Responded?
    ensures fullSummary.Ok? ==>
      fullSummary.value == Join(SummarySeparator, seq(|chunks|, i requires 0 <= i < |chunks| => SummaryEntry(i, responses[i].reply)))
  {
    transcript := Join(" ", SegmentTexts(segments));
    chunks := ChunkText(transcript, DefaultMaxWords);
    ChunkRoundTrip(transcript, DefaultMaxWords);
    var outcome;
    sent, outcome := SummarizeChunks(chunks, responses);
    match outcome
    case Err(error) =>
      fullSummary := Err(error);
    case Ok(summaries) =>
      assert summaries == seq(|chunks|, i requires 0 <= i < |chunks| => SummaryEntry(i, responses[i].reply));
      fullSummary := Ok(Join(SummarySeparator, summaries));
  }
}
