# Laudo por voz — a verified model of the dictation-to-report core

The system turns a dictated ultrasound report into an editable, printable
report ("laudo"):

- the browser records audio in chunks (`AudioRecorder.js`);
- the `App` component uploads the recording and keeps the processing, result and
  error state (`App.js`);
- the Flask route `POST /process-audio` runs a chain of guards around
  transcription and structuring (`routes.py`);
- the NLP service cuts the JSON object out of the language model's reply and
  wraps it with metadata, or refines a single text (`nlp_service.py`);
- the form shows the structured report for editing, renders a print
  template from it and names and lays out the exported PDF (`LaudoForm.js`).

The Dafny modules follow those files:

| module | file | models |
|---|---|---|
| `Wrappers` | `wrappers.dfy` | `Option` |
| `Text` | `text.dfy` | global single-character replace (`String.prototype.replace` with `/x/g`) |
| `OrderedMap` | `ordered_map.dfy` | objects / dicts as key-ordered entries; `{...o, [k]: v}` and `d[k] = v` |
| `Json` | `json.dfy` | JSON values, JavaScript and Python truthiness, property reads |
| `Laudo` | `laudo.dfy` | the report record, `handleInputChange`'s update, the JSON encoding |
| `LaudoViews` | `laudo_views.dfy` | `formatLabel`, the editable form and the print template |
| `LaudoExport` | `laudo_export.dfy` | the PDF file name and the image geometry |
| `LaudoForm` | `laudo_form.dfy` | the form component: `formData`, `isSaving` and its handlers |
| `AudioRecorder` | `audio_recorder.dfy` | the recorder component: chunk buffer, `isRecording`, start/stop |
| `App` | `app.dfy` | the page component: `isProcessing`, `laudoResult`, `error` |
| `NlpService` | `nlp_service.dfy` | `processar_laudo_com_ia`, `improve_single_text_with_ia` |
| `Routes` | `routes.dfy` | `process_audio` |

Stateful code is modelled as classes with the component's state as fields:
`LaudoFormComponent`, `AudioRecorderComponent` and `AppComponent`.
An `async` handler is split at its `await` into a method for each side
(`BeginExport`/`FinishExport`, `BeginAudioStop`/`FinishAudioStop`).
The awaited result becomes a parameter of the second method.

Everything outside the program enters as parameters:
- the microphone grant;
- the raster canvas;
- the axios outcome;
- the transcription function;
- the model's reply or exception;
- the `json.loads` parser;
- the clock's reading.

## Model

| member | source | states |
|---|---|---|
| Text.ReplaceAll | frontend/src/components/LaudoForm.js:51 | same length; every occurrence of the character is replaced and every other character kept; the replaced character no longer occurs |
| Text.ReplaceAllAbsent | frontend/src/components/LaudoForm.js:51 | replacing a character that does not occur leaves the text unchanged |
| OrderedMap.Get | frontend/src/components/LaudoForm.js:131 | a property read is absent exactly when the key is not among the keys |
| OrderedMap.GetStored | frontend/src/components/LaudoForm.js:131 | with distinct keys, reading the key of entry i yields entry i's value |
| OrderedMap.Assign | frontend/src/components/LaudoForm.js:23 | `{...o, [k]: v}`: an existing key keeps its place, a new key is appended last |
| OrderedMap.AssignReads | frontend/src/components/LaudoForm.js:23 | after the assignment k reads v and every other key reads as before |
| OrderedMap.AssignUnique | frontend/src/components/LaudoForm.js:23 | assigning keeps the keys distinct |
| OrderedMap.AssignExisting | frontend/src/components/LaudoForm.js:23 | assigning an existing key rewrites that one entry in place |
| OrderedMap.AssignFirst | frontend/src/components/LaudoForm.js:23 | assigning the key of entry i, absent before i, rewrites entry i in place |
| Json.ErrorBody | backend/app/api/routes.py:9 | the `{"error": message}` body carries the message under `error` |
| Laudo.Edit | frontend/src/components/LaudoForm.js:18-28 | with section `orgaos` only `orgaos[name]` changes (other findings, patient and conclusion untouched); key order kept for an existing key, new key appended; with section `paciente` only the name changes; without a section only `conclusao` changes; distinct finding keys are preserved |
| Laudo.EditFindingInPlace | frontend/src/components/LaudoForm.js:125-136 | editing the textarea of finding i replaces exactly entry i of `orgaos` |
| Laudo.FindingsFromJson | frontend/src/components/LaudoForm.js:78 | findings are read exactly when every member is a string; then one finding per member, same key and text, same order |
| Laudo.FindingsJsonRoundTrip | frontend/src/components/LaudoForm.js:78 | an object of strings read as findings and written back is the same object |
| Laudo.Decode | frontend/src/App.js:58 | a report is read exactly when `paciente.nome` and `conclusao` are strings and `orgaos` an object of strings; then it carries those name, conclusion and findings |
| Laudo.FindingsRoundTrip | frontend/src/components/LaudoForm.js:78 | findings read back from their JSON object are the findings, in order |
| Laudo.DecodeEncode | frontend/src/App.js:58 | the report the form reads out of `laudo_estruturado` is the report that was sent |
| LaudoViews.UpperWordStarts | frontend/src/components/LaudoForm.js:6 | `/\b\w/g` upper-casing: same length; exactly the ASCII word characters at a word start are upper-cased |
| LaudoViews.FormatLabel | frontend/src/components/LaudoForm.js:5-7 | same length as the key; no `_`; each `_` becomes a space, each ASCII letter starting a word is upper-cased, every other character is kept |
| LaudoViews.FormatLabelIdempotent | frontend/src/components/LaudoForm.js:5-7 | formatting a label twice gives the label |
| LaudoViews.SnakeCaseLabel | frontend/src/components/LaudoForm.js:5-7 | two lower-case ASCII words joined by `_` become both words capitalised, separated by a space |
| LaudoViews.FormatLabelNonAsciiExample | frontend/src/components/LaudoForm.js:6 | `\b` is ASCII-only: the letter after a non-ASCII letter counts as a word start (`baço` becomes `BaçO`) |
| LaudoViews.EditableRows | frontend/src/components/LaudoForm.js:125-136 | one row per finding, empty ones too, in entry order, with its key, formatted caption and value |
| LaudoViews.EditableView | frontend/src/components/LaudoForm.js:105-156 | the form's rows carry exactly the report's finding keys in order; the save button is disabled exactly while saving |
| LaudoViews.PrintRows | frontend/src/components/LaudoForm.js:78-85 | no more rows than findings; each row has non-empty text and the caption `formatLabel(key) + ":"` |
| LaudoViews.PrintRowsFromEditableRows | frontend/src/components/LaudoForm.js:78-85 | the printed rows are the editable rows filtered to the non-empty values |
| LaudoViews.PrintRowMembership | frontend/src/components/LaudoForm.js:78-85 | a row is printed if and only if it comes from a finding with non-empty text |
| LaudoViews.PrintRowsSubsequence | frontend/src/components/LaudoForm.js:78-85 | the printed findings are a subsequence of the report's findings, in `Object.entries` order |
| LaudoViews.PrintView | frontend/src/components/LaudoForm.js:61-103 | header, patient and findings blocks in order; the conclusion block appears if and only if `conclusao` is non-empty and then shows it; the signature block always closes the template |
| LaudoViews.ViewsAgree | frontend/src/components/LaudoForm.js:61-156 | the print template shows the same name, the non-empty rows of the editable form and its conclusion exactly when non-empty |
| LaudoExport.FileName | frontend/src/components/LaudoForm.js:51 | `laudo_` + the name with spaces as `_` + `.pdf`, `laudo_paciente.pdf` for an empty name; never contains a space |
| LaudoExport.FallbackFileName | frontend/src/components/LaudoForm.js:51 | the file is `laudo_paciente.pdf` if and only if the name is empty or is `paciente` itself |
| LaudoExport.FallbackOnlyForItself | frontend/src/components/LaudoForm.js:51 | a non-empty name giving `laudo_paciente.pdf` is `paciente` |
| LaudoExport.FileNameOfFullName | frontend/src/components/LaudoForm.js:51 | a first and last name give `laudo_first_last.pdf` |
| LaudoExport.FileNameOfBlankName | frontend/src/components/LaudoForm.js:51 | a name of n spaces gives n underscores, not the fallback |
| LaudoExport.ImagePlacement | frontend/src/components/LaudoForm.js:41-49 | image at (15, 15), width 180 so the side margins are equal, height in the canvas's aspect ratio, undefined for a zero-width canvas |
| LaudoExport.FitsFirstPage | frontend/src/components/LaudoForm.js:41-49 | the image stays inside the bottom margin if and only if the canvas is at most 267/180 times as tall as wide |
| LaudoForm.LaudoFormComponent.constructor | frontend/src/components/LaudoForm.js:10-11 | the form starts with the given report and not saving |
| LaudoForm.LaudoFormComponent.ReceiveProps | frontend/src/components/LaudoForm.js:14-16 | a new report from the parent replaces the edited one |
| LaudoForm.LaudoFormComponent.HandleInputChange | frontend/src/components/LaudoForm.js:18-28 | `formData` becomes `Edit` of the previous `formData` |
| LaudoForm.LaudoFormComponent.BeginExport | frontend/src/components/LaudoForm.js:30-38 | `isSaving` is set; without a template it is cleared again and nothing is rasterised; otherwise the current report's print template is rasterised; the patient name of the click-time report is captured for the file name |
| LaudoForm.LaudoFormComponent.FinishExport | frontend/src/components/LaudoForm.js:41-54 | the PDF is named after the name captured at the click, the image placed as `ImagePlacement`, and `isSaving` cleared |
| LaudoForm.LaudoFormComponent.Render | frontend/src/components/LaudoForm.js:105-156 | the form shows the report's name and conclusion, one row per finding with its key and text in order, and the save button disabled exactly while saving |
| LaudoForm.RenameDuringExport | frontend/src/components/LaudoForm.js:30-54 | a name typed while the template is rasterised changes the form but not the exported file name, which keeps the click-time name |
| LaudoForm.EditKeepsFormRows | frontend/src/components/LaudoForm.js:125-136 | typing into a finding keeps the form's rows and their order; only that row's value changes |
| AudioRecorder.Concat | frontend/src/components/AudioRecorder.js:26 | the payload is empty exactly when every chunk is empty; the first chunk is a prefix of the payload |
| AudioRecorder.ConcatAppend | frontend/src/components/AudioRecorder.js:26 | the blob of appended chunk lists is the concatenation of their blobs |
| AudioRecorder.NonEmpty | frontend/src/components/AudioRecorder.js:19-23 | the kept chunks all have size > 0 and are no more than arrived |
| AudioRecorder.ConcatNonEmpty | frontend/src/components/AudioRecorder.js:19-26 | dropping empty chunks does not change the recorded bytes |
| AudioRecorder.NonEmptyAppend | frontend/src/components/AudioRecorder.js:19-23 | filtering keeps arrival order: later arrivals are kept after earlier ones |
| AudioRecorder.AudioRecorderComponent.constructor | frontend/src/components/AudioRecorder.js:4-6 | not recording, no recorder, empty buffer |
| AudioRecorder.AudioRecorderComponent.StartRecording | frontend/src/components/AudioRecorder.js:8-39 | without the media API or the microphone nothing changes; otherwise a recorder is recording and `isRecording` is true |
| AudioRecorder.AudioRecorderComponent.OnDataAvailable | frontend/src/components/AudioRecorder.js:19-23 | a chunk is appended exactly when its size is > 0; the buffer stays the non-empty arrivals in order |
| AudioRecorder.AudioRecorderComponent.OnStop | frontend/src/components/AudioRecorder.js:25-31 | `onStop` receives the buffered chunks concatenated in order as `audio/webm`, which is every byte that arrived; the buffer is then empty |
| AudioRecorder.AudioRecorderComponent.StopRecording | frontend/src/components/AudioRecorder.js:41-46 | a no-op without a recorder; otherwise the recorder is stopped and `isRecording` false; a stop event is pending exactly if the recorder was recording |
| AudioRecorder.AudioRecorderComponent.DeliverStopEvents | frontend/src/components/AudioRecorder.js:19-31 | a pending stop delivers its last chunk and one payload holding all arrived bytes, then empties the buffer; without a pending stop nothing happens |
| AudioRecorder.AudioRecorderComponent.Click | frontend/src/components/AudioRecorder.js:50-53 | the chunk buffer is never touched; disabled does nothing; while recording the button stops and a stop is pending; otherwise it starts, or leaves the recorder as it was when the microphone is unavailable, and the pending-stop flag is unchanged |
| App.ErrorMessage | frontend/src/App.js:26 | the server's `error` field when truthy, otherwise `Erro ao processar o áudio.`; always truthy, so shown |
| App.ServerMessageShown | frontend/src/App.js:26-27 | a backend error body's non-empty message is what the page shows |
| App.AppComponent.constructor | frontend/src/App.js:8-10 | not processing, no result, empty error |
| App.AppComponent.BeginAudioStop | frontend/src/App.js:12-18 | processing starts, result and error are cleared, the blob is posted to the backend as field `audio`, file `audio.webm` |
| App.AppComponent.FinishAudioStop | frontend/src/App.js:20-31 | on a 2xx response the result is the response body; otherwise the error is `ErrorMessage`; processing ends either way |
| App.AppComponent.HandleAudioStop | frontend/src/App.js:12-32 | after a submission processing is over; the result is the body on success and null on failure, so a failure discards the previous report |
| App.AppComponent.Render | frontend/src/App.js:34-63 | the page for the component's state: recorder disabled and spinner exactly while processing, the error exactly when truthy, the form exactly with a truthy result, fed its `laudo_estruturado` |
| App.View | frontend/src/App.js:41-60 | recorder disabled and spinner shown exactly while processing; error shown exactly when truthy; transcription and form shown exactly when the result is truthy, the form receiving `laudo_estruturado` |
| App.FailureShowsErrorOnly | frontend/src/App.js:41-60 | after a failed submission the recorder is enabled, the error shown and no form rendered |
| NlpService.Find | backend/app/services/nlp_service.py:72 | `find`: -1 exactly when absent, otherwise the first occurrence |
| NlpService.RFind | backend/app/services/nlp_service.py:73 | `rfind`: -1 exactly when absent, otherwise the last occurrence |
| NlpService.Slice | backend/app/services/nlp_service.py:75 | Python slicing: the exact slice within bounds, empty when the stop is not after the start |
| NlpService.ExtractJsonSpan | backend/app/services/nlp_service.py:72-78 | none exactly when a brace is missing; from the first `{` through the last `}` when they are in order; empty when the last `}` precedes the first `{` |
| NlpService.SpanIsOutermost | backend/app/services/nlp_service.py:72-75 | a non-empty span starts with `{`, ends with `}` and has no `{` before it and no `}` after it in the reply |
| NlpService.StructuredResult | backend/app/services/nlp_service.py:83-90 | the result dict has exactly the keys `laudo_estruturado` and `metadados`; it holds the parsed report, the processing time and `openrouter/` + the model name |
| NlpService.ProcessarLaudo | backend/app/services/nlp_service.py:50-100 | None for a missing or empty text whatever the model does; None for API and other exceptions and a None content; a result exactly when both braces are present and the span parses; then a truthy dict with keys `laudo_estruturado` and `metadados`, `laudo_estruturado` the parsed value and `metadados.modelo_usado` `openrouter/` + the model name |
| NlpService.MisorderedBracesFail | backend/app/services/nlp_service.py:72-97 | a `}` before every `{` gives the empty span, which does not parse, so None |
| NlpService.LeadingSpace | backend/app/services/nlp_service.py:129 | the length of the whitespace run at the start: all whitespace, followed by non-whitespace or the end |
| NlpService.TrailingSpace | backend/app/services/nlp_service.py:129 | the length of the whitespace run at the end: all whitespace, preceded by non-whitespace or the start |
| NlpService.Strip | backend/app/services/nlp_service.py:129 | `str.strip`: the infix left after removing whitespace on both ends, starting and ending with non-whitespace |
| NlpService.StripIdempotent | backend/app/services/nlp_service.py:129 | stripping twice is stripping once |
| NlpService.ImproveSingleText | backend/app/services/nlp_service.py:113-136 | `""` for a missing or empty text; the stripped reply on success; the text unchanged on any exception |
| Routes.ProcessAudio | backend/app/api/routes.py:7-27 | no `audio` part: 400 and no service called; falsy transcription: 500 and structuring not called; no structuring result: 500; otherwise both services called in order and 200 with `WithOriginalText` of the result |
| Routes.WithOriginalText | backend/app/api/routes.py:25 | the body gains `transcricao_original` holding the text (appended if new); every other key reads as in the result |
| Routes.SuccessBody | backend/app/api/routes.py:19-27 | a success body has exactly the keys `laudo_estruturado`, `metadados`, `transcricao_original`, in that order, the last holding the transcription |

## Left out

- Laudo.Edit: requires that section `paciente` edits only `nome` and that no section edits only `conclusao`. Those are the only inputs the form has (LaudoForm.js:118, 146). Other top-level or patient keys are not part of the report record.
- OrderedMap.Assign: keys are kept in insertion order. JavaScript lists integer-like keys first, which this model does not capture.
- Laudo.Decode: accepts only a string `paciente.nome`, a string `conclusao` and an object `orgaos` whose values are all strings; every other shape is None. The browser does not reject those shapes; what it does with each:
  - a missing or `null` `paciente`: reading `formData.paciente.nome` throws while rendering (LaudoForm.js:71), so the form does not render;
  - a string, number, boolean or array `paciente`: `.nome` reads as `undefined`, so the page renders with an empty name, but `undefined.replace` throws at LaudoForm.js:51 after rasterisation, so no PDF is saved and `isSaving` stays set;
  - a non-string `nome`: React shows a number or array as is and a boolean or `null` as nothing (an object makes it throw while rendering), and `.replace` throws at LaudoForm.js:51 after rasterisation, with the same result as above;
  - a missing or `null` `orgaos`: `Object.entries` throws while rendering (LaudoForm.js:78);
  - a string or array `orgaos`: `Object.entries` and `Object.keys` treat it as an object, so there is one row per character or element, keyed by its index (LaudoForm.js:78, 125);
  - a number or boolean `orgaos`: no rows;
  - a non-string `conclusao` or finding value: React shows a number or array as is and a boolean or `null` as nothing; an object value makes it throw.
- LaudoForm.js:57 (`if (!formData) return null`): a null `formData` is not modelled; the report is always a record.
- html2canvas, `toDataURL`, jsPDF `addImage`/`save` and `toLocaleDateString`: foreign calls. The canvas, the date text and the saved file name/placement are parameters or results. The geometry is over reals, not IEEE doubles.
- LaudoForm.LaudoFormComponent.FinishExport: a rejected rasterisation is modelled by this method never running. `isSaving` then stays set, as in the source, which has no `finally`.
- MediaRecorder, `getUserMedia`, track stopping, `alert` and `console`: browser APIs. The API's presence and the microphone grant are boolean inputs. The browser's final `dataavailable` and `stop` events are `DeliverStopEvents`.
- AudioRecorder.AudioRecorderComponent.StartRecording: the window in which `getUserMedia` is pending (a second click may start a second recorder) is not modelled; the start is atomic.
- axios, the HTTP transport and the OpenAI/OpenRouter client: modelled as their outcomes (`AxiosOutcome`, `Completion`).
- NlpService.ProcessarLaudo: the claim that the model is not called for an empty text is stated as the result not depending on the completion. The prompts and `print` logging are not modelled.
- `json.loads` is the parameter `loads`. Only the empty span is assumed to fail (in `MisorderedBracesFail`).
- `datetime.now().isoformat()` is the parameter `processedAt`.
- backend/app/services/transcription_service.py is not part of this model. It uses pydub and a speech-recognition service; `process_audio` receives it as a function from the uploaded file to text or None.
- backend/app/__init__.py (Flask, CORS and environment bootstrapping) is not part of this model.
- `jsonify` serialisation: it does not override Flask's default JSON provider, which sorts object keys. So the findings the browser receives, and shows in `Object.entries` order, come in sorted key order, not in the order the language model wrote them. The model keeps the order the objects were built in; the keys of `Routes.SuccessBody` happen to be in sorted order already.
- React rendering, CSS, and the scheduling of state updates are not modelled. Each handler's updates are applied in order.
- Per-field text-improvement requests, busy sets and an "already recording" guard: no such code exists; `improve_single_text_with_ia` is modelled as a function, unwired, as in the source.
