/**
 * The App component: one dictation upload and the state around it,
 * `isProcessing`, `laudoResult` and `error`, and what the page shows.
 */
module App {
  import opened Wrappers
  import opened Json
  import opened AudioRecorder

  const ProcessAudioUrl := "http://127.0.0.1:5000/api/process-audio"
  const AudioField := "audio"
  const AudioFileName := "audio.webm"
  const DefaultError := "Erro ao processar o áudio."

  /** The multipart POST: the blob under form field `audio`, file name `audio.webm`. */
  datatype Upload = Upload(url: string, field: string, fileName: string, blob: Blob)

  /**
   * How `axios.post` settles: with an HTTP response (status and parsed body)
   * or without one (network failure). axios resolves only for a 2xx status.
   */
  datatype AxiosOutcome = Response(status: int, data: Json) | NoResponse

  predicate Resolved(o: AxiosOutcome) {
    o.Response? && 200 <= o.status < 300
  }

  /**
   * `err.response?.data?.error || 'Erro ao processar o áudio.'`: the server's
   * message when it sent a truthy one, the fixed message otherwise. Either way
   * the result is truthy, so the error paragraph is shown.
   */
  function ErrorMessage(o: AxiosOutcome): (m: Json)
    ensures Truthy(m)
    ensures o.Response? && Truthy(Member(o.data, "error")) ==> m == Member(o.data, "error")
    ensures (o.NoResponse? || !Truthy(Member(o.data, "error"))) ==> m == JStr(DefaultError)
  {
    var serverError := if o.Response? then Member(o.data, "error") else JNull;
    if Truthy(serverError) then serverError else JStr(DefaultError)
  }

  /** An error response of the backend has its message shown as it is. */
  lemma ServerMessageShown(status: int, message: string)
    requires !(200 <= status < 300) && message != ""
    ensures ErrorMessage(Response(status, ErrorBody(message))) == JStr(message)
  {
  }

  /** What the page shows. */
  datatype AppView = AppView(
    recorderDisabled: bool,
    spinner: bool,
    errorText: Option<Json>,
    transcription: Option<Json>,
    formData: Option<Json>)

  class AppComponent {
    var isProcessing: bool
    /** `laudoResult`; JNull stands for `null`. */
    var laudoResult: Json
    var error: Json

    constructor ()
      ensures !isProcessing && laudoResult == JNull && error == JStr("")
    {
      isProcessing := false;
      laudoResult := JNull;
      error := JStr("");
    }

    /**
     * `handleAudioStop` up to the `await`: processing starts, the previous
     * report and error are dropped, and the blob is posted as field `audio`.
     */
    method BeginAudioStop(blob: Blob) returns (upload: Upload)
      modifies this
      ensures isProcessing && laudoResult == JNull && error == JStr("")
      ensures upload == Upload(ProcessAudioUrl, AudioField, AudioFileName, blob)
    {
      isProcessing := true;
      laudoResult := JNull;
      error := JStr("");
      upload := Upload(ProcessAudioUrl, AudioField, AudioFileName, blob);
    }

    /**
     * The rest of `handleAudioStop`: on success the response body becomes
     * `laudoResult`; on failure `error` gets the message; in both cases
     * processing ends.
     */
    method FinishAudioStop(outcome: AxiosOutcome)
      modifies this
      ensures !isProcessing
      ensures Resolved(outcome) ==> laudoResult == outcome.data && error == old(error)
      ensures !Resolved(outcome) ==> laudoResult == old(laudoResult) && error == ErrorMessage(outcome)
    {
      if Resolved(outcome) {
        laudoResult := outcome.data;
      } else {
        error := ErrorMessage(outcome);
      }
      isProcessing := false;
    }

    /** One whole submission, with `outcome` the way the request settled. */
    method HandleAudioStop(blob: Blob, outcome: AxiosOutcome) returns (upload: Upload)
      modifies this
      ensures upload.field == AudioField && upload.fileName == AudioFileName && upload.blob == blob
      ensures !isProcessing
      ensures laudoResult == if Resolved(outcome) then outcome.data else JNull
      ensures error == if Resolved(outcome) then JStr("") else ErrorMessage(outcome)
    {
      upload := BeginAudioStop(blob);
      FinishAudioStop(outcome);
    }

    /** The page for the current state. */
    function Render(): (v: AppView)
      reads this
      ensures v.recorderDisabled == isProcessing && v.spinner == isProcessing
      ensures v.errorText == if Truthy(error) then Some(error) else None
      ensures v.formData.Some? <==> Truthy(laudoResult)
      ensures v.formData.Some? ==> v.formData.value == Member(laudoResult, "laudo_estruturado")
    {
      View(isProcessing, laudoResult, error)
    }
  }

  /**
   * The page for a state: the recorder is disabled exactly while processing,
   * the error paragraph appears when `error` is truthy, and the transcription
   * and the form appear only with a truthy `laudoResult`, the form receiving
   * its `laudo_estruturado`.
   */
  function View(isProcessing: bool, laudoResult: Json, error: Json): (v: AppView)
    ensures v.recorderDisabled == isProcessing && v.spinner == isProcessing
    ensures v.errorText.Some? <==> Truthy(error)
    ensures v.formData.Some? <==> Truthy(laudoResult)
    ensures v.formData.Some? ==> v.formData.value == Member(laudoResult, "laudo_estruturado")
    ensures v.transcription.Some? <==> Truthy(laudoResult)
  {
    AppView(
      isProcessing,
      isProcessing,
      if Truthy(error) then Some(error) else None,
      if Truthy(laudoResult) then Some(Member(laudoResult, "transcricao_original")) else None,
      if Truthy(laudoResult) then Some(Member(laudoResult, "laudo_estruturado")) else None)
  }

  /**
   * After a failed submission the page shows the error and no report: the
   * previous report was dropped when the submission began.
   */
  lemma FailureShowsErrorOnly(outcome: AxiosOutcome)
    requires !Resolved(outcome)
    ensures var v := View(false, JNull, ErrorMessage(outcome));
      !v.recorderDisabled && v.errorText.Some? && v.formData.None?
  {
  }
}
