/**
 * routes.py: `POST /process-audio`, a chain of guards around transcription
 * and structuring, each failure answered with a JSON error and a status.
 */
module Routes {
  import opened Wrappers
  import opened OrderedMap
  import opened Json
  import opened NlpService

  const AudioField := "audio"
  const NoAudioError := "Nenhum arquivo de áudio enviado"
  const TranscriptionError := "Não foi possível transcrever o áudio"
  const StructuringError := "A IA não conseguiu processar o laudo estruturado"
  const OriginalTextKey := "transcricao_original"

  /** An uploaded file: its name and bytes. */
  datatype FileStorage = FileStorage(fileName: string, data: seq<bv8>)

  /** The part of the Flask request the route reads: `request.files`, by form field. */
  datatype Request = Request(files: Entries<FileStorage>)

  datatype HttpResponse = HttpResponse(status: int, body: Json)

  /** A call into one of the two services, in the order the route made them. */
  datatype ServiceCall = Transcribe(file: FileStorage) | Structure(text: string)

  /** Python's `not text` for the transcription: None or the empty string. */
  predicate Falsy(text: Option<string>) {
    text.None? || text.value == ""
  }

  /**
   * `process_audio()`. `transcribe` stands for `transcribe_audio_from_blob`
   * (text or None); `completion`, `processedAt` and `loads` are what
   * `processar_laudo_com_ia` sees. The guards run in order (audio present,
   * transcription truthy, structuring truthy), the first failure decides the
   * answer, and `calls` records which services were reached. On success the
   * structuring result is sent with `transcricao_original` added.
   */
  method ProcessAudio(req: Request, transcribe: FileStorage -> Option<string>, completion: Completion,
                      processedAt: string, loads: string -> Option<Json>)
    returns (resp: HttpResponse, calls: seq<ServiceCall>)
    // No audio part: 400, and no service is called.
    ensures Get(req.files, AudioField).None? ==>
      resp == HttpResponse(400, ErrorBody(NoAudioError)) && calls == []
    // Falsy transcription: 500, and structuring is not called.
    ensures Get(req.files, AudioField).Some? && Falsy(transcribe(Get(req.files, AudioField).value)) ==>
      && resp == HttpResponse(500, ErrorBody(TranscriptionError))
      && calls == [Transcribe(Get(req.files, AudioField).value)]
    // Otherwise both services are called, in that order.
    ensures Get(req.files, AudioField).Some? && !Falsy(transcribe(Get(req.files, AudioField).value)) ==>
      calls == [Transcribe(Get(req.files, AudioField).value),
                Structure(transcribe(Get(req.files, AudioField).value).value)]
    // Falsy structuring result: 500.
    ensures Get(req.files, AudioField).Some? && !Falsy(transcribe(Get(req.files, AudioField).value))
            && ProcessarLaudo(transcribe(Get(req.files, AudioField).value), completion, processedAt, loads).None? ==>
      resp == HttpResponse(500, ErrorBody(StructuringError))
    // Success: 200 with the result plus one key holding the transcription.
    ensures Get(req.files, AudioField).Some? && !Falsy(transcribe(Get(req.files, AudioField).value))
            && ProcessarLaudo(transcribe(Get(req.files, AudioField).value), completion, processedAt, loads).Some? ==>
      resp == HttpResponse(200, WithOriginalText(
        ProcessarLaudo(transcribe(Get(req.files, AudioField).value), completion, processedAt, loads).value,
        transcribe(Get(req.files, AudioField).value).value))
  {
    calls := [];
    var audioFile := Get(req.files, AudioField);
    if audioFile.None? {
      return HttpResponse(400, ErrorBody(NoAudioError)), calls;
    }
    var originalText := transcribe(audioFile.value);
    calls := calls + [Transcribe(audioFile.value)];
    if Falsy(originalText) {
      return HttpResponse(500, ErrorBody(TranscriptionError)), calls;
    }
    var finalJsonData := ProcessarLaudo(originalText, completion, processedAt, loads);
    calls := calls + [Structure(originalText.value)];
    if finalJsonData.None? || !PyTruthy(finalJsonData.value) {
      return HttpResponse(500, ErrorBody(StructuringError)), calls;
    }
    resp := HttpResponse(200, WithOriginalText(finalJsonData.value, originalText.value));
  }

  /**
   * Line 25, `final_json_data['transcricao_original'] = original_text`: the
   * result gains one key, last, holding the text; every other key reads as before.
   */
  function WithOriginalText(result: Json, text: string): (body: Json)
    requires result.JObj?
    ensures body.JObj?
    ensures Keys(body.fields) ==
      if OriginalTextKey in Keys(result.fields) then Keys(result.fields) else Keys(result.fields) + [OriginalTextKey]
    ensures Member(body, OriginalTextKey) == JStr(text)
    ensures forall k :: k != OriginalTextKey ==> Member(body, k) == Member(result, k)
  {
    AssignReads(result.fields, OriginalTextKey, JStr(text));
    JObj(Assign(result.fields, OriginalTextKey, JStr(text)))
  }

  /**
   * The success body: the structuring envelope's two keys, then
   * `transcricao_original` holding the transcription.
   */
  lemma SuccessBody(text: string, completion: Completion, processedAt: string, loads: string -> Option<Json>)
    requires ProcessarLaudo(Some(text), completion, processedAt, loads).Some?
    ensures var body := WithOriginalText(ProcessarLaudo(Some(text), completion, processedAt, loads).value, text);
      && Keys(body.fields) == ["laudo_estruturado", "metadados", OriginalTextKey]
      && Member(body, OriginalTextKey) == JStr(text)
  {
    assert OriginalTextKey !in ["laudo_estruturado", "metadados"];
  }
}
