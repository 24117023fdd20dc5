/** Speaker diarization post-processing (src/diarize.py): load the audio, clamp the
    requested speaker count to the number of embeddings, cluster, and turn every
    (window, label) pair into one speaker segment. Loading, embedding and clustering
    are foreign calls; their results are inputs here. */
module Diarize {
  import opened Wrappers
  import opened Text

  /** The boundaries of one embedding window. Times are integers (for instance
      hundredths of a second); the rounding of float times is not modelled. */
  datatype Window = Window(start: int, end: int)

  /** One speaker segment record: `{"start", "end", "speaker", "text"}`. */
  datatype Segment = Segment(start: int, end: int, speaker: string, text: string)

  /** Outcome of `preprocess_wav`: loaded, or the text of the exception it raised. */
  datatype AudioLoad = Loaded | LoadRaised(error: string)

  /** The exceptions `diarize_audio` raises itself. */
  datatype DiarizeError = ValueError(message: string)

  const LoadErrorPrefix: string := "Error loading audio file: "

  const SpeakerPrefix: string := "Speaker "

  /** The number of clusters asked for, given `embeddings` windows and a request:
      too few embeddings lower it to their number, but never below one. */
  function SpeakerCount(embeddings: nat, requested: int): (count: int)
    ensures requested >= 1 ==> 1 <= count <= requested
    ensures requested >= 1 ==> count <= Max(1, embeddings)
  {
    if embeddings < requested then Max(1, embeddings) else requested
  }

  /** The request is kept exactly when there are enough embeddings for it or it is
      at most one; otherwise the count drops to the embeddings, but not below one. */
  lemma SpeakerCountBounds(embeddings: nat, requested: int)
    ensures SpeakerCount(embeddings, requested) == requested <==> embeddings >= requested || requested <= 1
    ensures embeddings < requested ==> SpeakerCount(embeddings, requested) == Max(1, embeddings)
  {
  }

  /** The speaker name of a cluster label: speakers are numbered from one. */
  function SpeakerName(clusterId: nat): (name: string)
    ensures |name| > |SpeakerPrefix| && name[..|SpeakerPrefix|] == SpeakerPrefix
    ensures (forall i :: |SpeakerPrefix| <= i < |name| ==> IsDigit(name[i]))
    ensures DecimalValue(name[|SpeakerPrefix|..]) == clusterId + 1
  {
    DecimalRoundTrip(clusterId + 1);
    assert (SpeakerPrefix + Decimal(clusterId + 1))[|SpeakerPrefix|..] == Decimal(clusterId + 1);
    SpeakerPrefix + Decimal(clusterId + 1)
  }

  /** Distinct labels get distinct names, and the name gives the label back. */
  lemma SpeakerNameInjective(a: nat, b: nat)
    ensures SpeakerName(a) == SpeakerName(b) <==> a == b
  {
    if SpeakerName(a) == SpeakerName(b) {
      PrefixedDecimalInjective(SpeakerPrefix, a + 1, b + 1);
    }
  }

  lemma FirstSpeakerName()
    ensures SpeakerName(0) == "Speaker 1"
  {
  }

  /** The record made from one window and its label; its text starts empty. */
  function SegmentOf(w: Window, clusterId: nat): (segment: Segment)
    ensures segment.start == w.start && segment.end == w.end && segment.text == ""
    ensures |segment.speaker| > |SpeakerPrefix| && segment.speaker[..|SpeakerPrefix|] == SpeakerPrefix
    ensures forall i :: |SpeakerPrefix| <= i < |segment.speaker| ==> IsDigit(segment.speaker[i])
    ensures DecimalValue(segment.speaker[|SpeakerPrefix|..]) == clusterId + 1
  {
    Segment(w.start, w.end, SpeakerName(clusterId), "")
  }

  /** The loop over `zip(wav_splits, labels)`: one segment per pair, in window
      order, stopping at the shorter of the two lists. Windows are never merged,
      whatever their labels. */
  method BuildSegments(windows: seq<Window>, labels: seq<nat>) returns (segments: seq<Segment>)
    ensures |segments| == Min(|windows|, |labels|)
    ensures forall i :: 0 <= i < |segments| ==> segments[i] == SegmentOf(windows[i], labels[i])
  {
    segments := [];
    var i := 0;
    while i < |windows| && i < |labels|
      invariant 0 <= i <= Min(|windows|, |labels|)
      invariant |segments| == i
      invariant forall j :: 0 <= j < i ==> segments[j] == SegmentOf(windows[j], labels[j])
    {
      var w, clusterId := windows[i], labels[i];
      segments := segments + [Segment(w.start, w.end, SpeakerName(clusterId), "")];
      i := i + 1;
    }
  }

  /** Two segments carry the same speaker exactly when their windows got the same
      label; every segment's text is empty. */
  lemma SegmentSpeakers(windows: seq<Window>, labels: seq<nat>, segments: seq<Segment>, i: nat, j: nat)
    requires |segments| == Min(|windows|, |labels|)
    requires forall k :: 0 <= k < |segments| ==> segments[k] == SegmentOf(windows[k], labels[k])
    requires i < |segments| && j < |segments|
    ensures segments[i].speaker == segments[j].speaker <==> labels[i] == labels[j]
    ensures segments[i].text == ""
  {
    SpeakerNameInjective(labels[i], labels[j]);
  }

  /** `diarize_audio(audio_path, num_speakers)`. `load` is what loading the file
      gives, `embeddings` and `windows` what the voice encoder returns, and
      `cluster(k)` the labels the clustering assigns when asked for `k` clusters. */
  method DiarizeAudio(load: AudioLoad, embeddings: nat, windows: seq<Window>,
                      cluster: int -> seq<nat>, requested: int)
    returns (result: Result<seq<Segment>, DiarizeError>)
    ensures load.LoadRaised? ==> result == Err(ValueError(LoadErrorPrefix + load.error))
    ensures load.Loaded? ==> result.Ok?
    ensures load.Loaded? ==>
      var labels := cluster(SpeakerCount(embeddings, requested));
      && |result.value| == Min(|windows|, |labels|)
      && forall i :: 0 <= i < |result.value| ==> result.value[i] == SegmentOf(windows[i], labels[i])
  {
    if load.LoadRaised? {
      return Err(ValueError(LoadErrorPrefix + load.error));
    }
    var numSpeakers := requested;
    if embeddings < numSpeakers {
      numSpeakers := Max(1, embeddings);
    }
    var labels := cluster(numSpeakers);
    var segments := BuildSegments(windows, labels);
    result := Ok(segments);
  }
}
