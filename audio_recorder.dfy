/**
 * The AudioRecorder component: a chunk buffer filled by the MediaRecorder's
 * `dataavailable` events and emptied, as one `audio/webm` payload, by its
 * `stop` event; and the `isRecording` flag behind the record/stop button.
 */
module AudioRecorder {
  import opened Wrappers

  type Chunk = seq<bv8>

  /** A `Blob`: its bytes and its MIME type. */
  datatype Blob = Blob(data: seq<bv8>, mimeType: string)

  const AudioMimeType := "audio/webm"

  /** The bytes of `new Blob(chunks)`: the chunks one after another, in order. */
  function Concat(chunks: seq<Chunk>): (bytes: seq<bv8>)
    ensures bytes == [] <==> forall i :: 0 <= i < |chunks| ==> chunks[i] == []
    ensures chunks != [] ==> chunks[0] <= bytes
  {
    if chunks == [] then [] else chunks[0] + Concat(chunks[1..])
  }

  lemma {:induction false} ConcatAppend(a: seq<Chunk>, b: seq<Chunk>)
    ensures Concat(a + b) == Concat(a) + Concat(b)
  {
    if a != [] {
      assert (a + b)[0] == a[0] && (a + b)[1..] == a[1..] + b;
      ConcatAppend(a[1..], b);
      assert Concat(a + b) == a[0] + Concat(a[1..] + b);
      assert a[0] + (Concat(a[1..]) + Concat(b)) == (a[0] + Concat(a[1..])) + Concat(b);
    } else {
      assert a + b == b;
    }
  }

  /** The chunks of non-zero size, in arrival order: what `ondataavailable` keeps. */
  function NonEmpty(chunks: seq<Chunk>): (kept: seq<Chunk>)
    ensures forall i :: 0 <= i < |kept| ==> |kept[i]| > 0
    ensures |kept| <= |chunks|
  {
    if chunks == [] then []
    else (if |chunks[0]| > 0 then [chunks[0]] else []) + NonEmpty(chunks[1..])
  }

  /** Dropping the empty chunks loses no audio: the payload is the same. */
  lemma {:induction false} ConcatNonEmpty(chunks: seq<Chunk>)
    ensures Concat(NonEmpty(chunks)) == Concat(chunks)
  {
    if chunks != [] {
      ConcatNonEmpty(chunks[1..]);
      var head := if |chunks[0]| > 0 then [chunks[0]] else [];
      ConcatAppend(head, NonEmpty(chunks[1..]));
      assert Concat(head) == chunks[0];
    }
  }

  /** Arrivals after arrivals are kept after what was kept. */
  lemma {:induction false} NonEmptyAppend(a: seq<Chunk>, b: seq<Chunk>)
    ensures NonEmpty(a + b) == NonEmpty(a) + NonEmpty(b)
  {
    if a != [] {
      assert (a + b)[0] == a[0] && (a + b)[1..] == a[1..] + b;
      NonEmptyAppend(a[1..], b);
      var head := if |a[0]| > 0 then [a[0]] else [];
      assert NonEmpty(a + b) == head + NonEmpty(a[1..] + b);
      assert head + (NonEmpty(a[1..]) + NonEmpty(b)) == (head + NonEmpty(a[1..])) + NonEmpty(b);
    } else {
      assert a + b == b;
    }
  }

  /** `mediaRecorderRef.current`: none yet, or a MediaRecorder and its `state`. */
  datatype RecorderState = NoRecorder | Recording | Inactive

  class AudioRecorderComponent {
    var isRecording: bool
    var recorder: RecorderState
    /** `audioChunksRef.current`. */
    var chunks: seq<Chunk>
    /** A `stop()` was issued and its `dataavailable`/`stop` events are still to come. */
    var stopPending: bool
    /** Every chunk the recorder delivered since the buffer was last emptied. */
    ghost var arrived: seq<Chunk>

    ghost predicate Valid()
      reads this
    {
      && chunks == NonEmpty(arrived)
      && (isRecording ==> recorder == Recording)
    }

    constructor ()
      ensures Valid()
      ensures !isRecording && recorder == NoRecorder && chunks == [] && !stopPending
    {
      isRecording := false;
      recorder := NoRecorder;
      chunks := [];
      stopPending := false;
      arrived := [];
    }

    /**
     * `startRecording`. Without the media API, or when the microphone is not
     * granted, nothing changes (the user only sees an alert). Otherwise a new
     * recorder starts and `isRecording` becomes true.
     */
    method StartRecording(mediaApiAvailable: bool, microphoneGranted: bool)
      requires Valid()
      modifies this`recorder, this`isRecording
      ensures Valid()
      ensures !(mediaApiAvailable && microphoneGranted) ==>
        isRecording == old(isRecording) && recorder == old(recorder) && chunks == old(chunks)
        && stopPending == old(stopPending) && arrived == old(arrived)
      ensures mediaApiAvailable && microphoneGranted ==>
        isRecording && recorder == Recording
        && chunks == old(chunks) && arrived == old(arrived) && stopPending == old(stopPending)
    {
      if !mediaApiAvailable {
        return;
      }
      if !microphoneGranted {
        return;
      }
      recorder := Recording;
      isRecording := true;
    }

    /** `ondataavailable`: a chunk of non-zero size is appended to the buffer. */
    method OnDataAvailable(chunk: Chunk)
      requires Valid()
      modifies this`chunks, this`arrived
      ensures Valid()
      ensures chunks == if |chunk| > 0 then old(chunks) + [chunk] else old(chunks)
      ensures arrived == old(arrived) + [chunk]
    {
      if |chunk| > 0 {
        chunks := chunks + [chunk];
      }
      arrived := arrived + [chunk];
      NonEmptyAppend(old(arrived), [chunk]);
    }

    /**
     * `onstop`: the buffered chunks, concatenated in order into one
     * `audio/webm` blob, are handed to `onStop` (returned here); then the
     * buffer is emptied. The payload holds every
     * byte that arrived, empty chunks contributing nothing.
     */
    method OnStop() returns (payload: Blob)
      requires Valid()
      modifies this`chunks, this`arrived
      ensures Valid()
      ensures payload == Blob(Concat(old(chunks)), AudioMimeType)
      ensures payload.data == Concat(old(arrived))
      ensures chunks == [] && arrived == []
    {
      payload := Blob(Concat(chunks), AudioMimeType);
      ConcatNonEmpty(arrived);
      chunks := [];
      arrived := [];
    }

    /**
     * `stopRecording`: a no-op without a recorder; otherwise the recorder is
     * stopped (its final chunk and `stop` event follow) and `isRecording`
     * becomes false. Stopping an inactive recorder fires no events.
     */
    method StopRecording()
      requires Valid()
      modifies this`recorder, this`isRecording, this`stopPending
      ensures Valid()
      ensures old(recorder) == NoRecorder ==>
        recorder == NoRecorder && isRecording == old(isRecording) && stopPending == old(stopPending)
      ensures old(recorder) != NoRecorder ==> recorder == Inactive && !isRecording
      ensures stopPending == (old(stopPending) || old(recorder) == Recording)
    {
      if recorder != NoRecorder {
        if recorder == Recording {
          stopPending := true;
        }
        recorder := Inactive;
        isRecording := false;
      }
    }

    /**
     * The MediaRecorder side of a stop: if one is pending it delivers the
     * last chunk and then the `stop` event, so `onStop` gets exactly one
     * payload per stop; otherwise nothing happens.
     */
    method DeliverStopEvents(lastChunk: Chunk) returns (payload: Option<Blob>)
      requires Valid()
      modifies this`chunks, this`arrived, this`stopPending
      ensures Valid() && !stopPending
      ensures old(stopPending) ==>
        payload == Some(Blob(Concat(old(arrived)) + lastChunk, AudioMimeType))
        && chunks == [] && arrived == []
      ensures !old(stopPending) ==>
        payload == None && chunks == old(chunks) && arrived == old(arrived)
    {
      if !stopPending {
        return None;
      }
      OnDataAvailable(lastChunk);
      var blob := OnStop();
      ConcatAppend(old(arrived), [lastChunk]);
      assert Concat([lastChunk]) == lastChunk;
      stopPending := false;
      payload := Some(blob);
    }

    /**
     * The record button: disabled, it does nothing; otherwise it stops while
     * recording and starts when not.
     */
    method Click(disabled: bool, mediaApiAvailable: bool, microphoneGranted: bool)
      requires Valid()
      modifies this`recorder, this`isRecording, this`stopPending
      ensures Valid()
      ensures chunks == old(chunks) && arrived == old(arrived)
      ensures disabled ==>
        isRecording == old(isRecording) && recorder == old(recorder) && stopPending == old(stopPending)
      ensures !disabled && old(isRecording) ==> !isRecording && recorder == Inactive && stopPending
      ensures !disabled && !old(isRecording) ==> stopPending == old(stopPending)
      ensures !disabled && !old(isRecording) && mediaApiAvailable && microphoneGranted ==> isRecording && recorder == Recording
      ensures !disabled && !old(isRecording) && !(mediaApiAvailable && microphoneGranted) ==>
        !isRecording && recorder == old(recorder)
    {
      if disabled {
        return;
      }
      if isRecording {
        StopRecording();
      } else {
        StartRecording(mediaApiAvailable, microphoneGranted);
      }
    }
  }
}
