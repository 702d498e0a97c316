/**
 * nlp_service.py: turning the language model's reply into the structured
 * report, and refining a single text. The model call itself is an input:
 * its reply, or the exception it raised.
 */
module NlpService {
  import opened Wrappers
  import opened OrderedMap
  import opened Json

  const ModelToUse := "google/gemma-3-12b-it:free"

  /**
   * How `client.chat.completions.create(...)` ended: an `APIError`, another
   * exception, or a reply whose `choices[0].message.content` may be None.
   */
  datatype Completion = ApiError | OtherError | Reply(content: Option<string>)

  // ------------------------------------------------------------- find, rfind

  /** `s.find(c)`: the first index of `c` in `s`, or -1. */
  function Find(s: string, c: char): (i: int)
    ensures -1 <= i < |s|
    ensures i == -1 <==> c !in s
    ensures i >= 0 ==> s[i] == c && c !in s[..i]
  {
    if s == [] then -1
    else if s[0] == c then 0
    else
      var j := Find(s[1..], c);
      assert j >= 0 ==> s[..j + 1] == [s[0]] + s[1..][..j];
      if j == -1 then -1 else j + 1
  }

  /** `s.rfind(c)`: the last index of `c` in `s`, or -1. */
  function RFind(s: string, c: char): (i: int)
    ensures -1 <= i < |s|
    ensures i == -1 <==> c !in s
    ensures i >= 0 ==> s[i] == c && c !in s[i + 1..]
  {
    if s == [] then -1
    else if s[|s| - 1] == c then |s| - 1
    else
      var t := s[..|s| - 1];
      var j := RFind(t, c);
      assert s == t + [s[|s| - 1]];
      if j == -1 then -1
      else
        assert s[j + 1..] == t[j + 1..] + [s[|s| - 1]];
        j
  }

  /** Python's `s[start:stop]` for non-negative bounds: clamped, and empty when stop <= start. */
  function Slice(s: string, start: nat, stop: nat): (r: string)
    ensures |r| <= |s|
    ensures start < stop <= |s| ==> r == s[start..stop]
    ensures stop <= start ==> r == ""
  {
    var hi := if stop <= |s| then stop else |s|;
    if start < hi then s[start..hi] else ""
  }

  /**
   * The JSON candidate cut out of the reply: from the first `{` through the
   * last `}`. None when either brace is missing.
   */
  function ExtractJsonSpan(raw: string): (span: Option<string>)
    ensures span.None? <==> '{' !in raw || '}' !in raw
    ensures span.Some? && Find(raw, '{') <= RFind(raw, '}') ==>
      span.value == raw[Find(raw, '{')..RFind(raw, '}') + 1]
    ensures span.Some? && RFind(raw, '}') < Find(raw, '{') ==> span.value == ""
  {
    var start := Find(raw, '{');
    var end := RFind(raw, '}');
    if start != -1 && end != -1 then Some(Slice(raw, start, end + 1)) else None
  }

  /**
   * A non-empty span is a brace-delimited text with no `{` before it and no
   * `}` after it in the reply.
   */
  lemma SpanIsOutermost(raw: string)
    requires ExtractJsonSpan(raw).Some? && ExtractJsonSpan(raw).value != ""
    ensures var span := ExtractJsonSpan(raw).value;
      && span[0] == '{' && span[|span| - 1] == '}'
      && (exists i :: 0 <= i && i + |span| <= |raw| && raw[i..i + |span|] == span
           && '{' !in raw[..i] && '}' !in raw[i + |span|..])
  {
    var i := Find(raw, '{');
    var j := RFind(raw, '}');
    var span := ExtractJsonSpan(raw).value;
    assert i <= j;
    assert raw[i..i + |span|] == span;
  }

  // ------------------------------------------------------ processar_laudo_com_ia

  /** The dict returned on success: the parsed report and the processing metadata. */
  function StructuredResult(parsed: Json, processedAt: string): (r: Json)
    ensures r.JObj? && Keys(r.fields) == ["laudo_estruturado", "metadados"]
    ensures Member(r, "laudo_estruturado") == parsed
    ensures Member(Member(r, "metadados"), "data_processamento") == JStr(processedAt)
    ensures Member(Member(r, "metadados"), "modelo_usado") == JStr("openrouter/" + ModelToUse)
  {
    var meta := [
      ("data_processamento", JStr(processedAt)),
      ("modelo_usado", JStr("openrouter/" + ModelToUse))
    ];
    var fields := [("laudo_estruturado", parsed), ("metadados", JObj(meta))];
    assert Get(fields, "metadados") == Get(fields[1..], "metadados") == Some(JObj(meta));
    assert Get(meta, "modelo_usado") == Get(meta[1..], "modelo_usado");
    KeysCons(fields[0], fields[1..]);
    assert [fields[0]] + fields[1..] == fields;
    JObj(fields)
  }

  /**
   * `processar_laudo_com_ia(texto)`, given how the model call ended, the time
   * `datetime.now().isoformat()` read, and `loads` for `json.loads` (None for
   * a `JSONDecodeError`). None for an empty or missing text, for every
   * exception and for a reply without a parsable brace span.
   */
  function ProcessarLaudo(texto: Option<string>, completion: Completion, processedAt: string,
                          loads: string -> Option<Json>): (r: Option<Json>)
    ensures texto.None? || texto.value == "" ==> r.None?
    ensures completion.ApiError? || completion.OtherError? || completion == Reply(None) ==> r.None?
    ensures r.Some? <==>
      && texto.Some? && texto.value != ""
      && completion.Reply? && completion.content.Some?
      && ExtractJsonSpan(completion.content.value).Some?
      && loads(ExtractJsonSpan(completion.content.value).value).Some?
    ensures r.Some? ==>
      && PyTruthy(r.value)
      && r.value.JObj? && Keys(r.value.fields) == ["laudo_estruturado", "metadados"]
      && Member(r.value, "laudo_estruturado") == loads(ExtractJsonSpan(completion.content.value).value).value
      && Member(Member(r.value, "metadados"), "modelo_usado") == JStr("openrouter/" + ModelToUse)
  {
    if texto.None? || texto.value == "" then None
    else
      match completion
      case ApiError => None
      case OtherError => None
      // `None.find` raises AttributeError, caught by `except Exception`.
      case Reply(None) => None
      case Reply(Some(raw)) =>
        match ExtractJsonSpan(raw)
        case None => None
        case Some(span) =>
          match loads(span)
          case None => None
          case Some(parsed) =>
            Some(StructuredResult(parsed, processedAt))
  }

  /**
   * A `}` that comes before every `{` gives the empty span, which `json.loads`
   * rejects, so the result is None.
   */
  lemma MisorderedBracesFail(texto: Option<string>, raw: string, processedAt: string,
                             loads: string -> Option<Json>)
    requires loads("") == None
    requires '{' in raw && '}' in raw && RFind(raw, '}') < Find(raw, '{')
    ensures ProcessarLaudo(texto, Reply(Some(raw)), processedAt, loads) == None
  {
    assert ExtractJsonSpan(raw) == Some("");
  }

  // ------------------------------------------------- improve_single_text_with_ia

  /**
   * `str.isspace()` for one character: the code points Python counts as
   * whitespace (tab to carriage return, the information separators, space,
   * NEL, no-break space, and the Unicode space separators and line/paragraph
   * separators).
   */
  predicate IsPySpace(c: char) {
    var n := c as int;
    || (0x09 <= n <= 0x0D) || (0x1C <= n <= 0x20) || n == 0x85 || n == 0xA0
    || n == 0x1680 || (0x2000 <= n <= 0x200A) || n == 0x2028 || n == 0x2029
    || n == 0x202F || n == 0x205F || n == 0x3000
  }

  /** How many characters of `s` before index `end` are leading whitespace. */
  function LeadingSpace(s: string, end: nat): (n: nat)
    requires end <= |s|
    ensures n <= end
    ensures forall k :: 0 <= k < n ==> IsPySpace(s[k])
    ensures n == end || !IsPySpace(s[n])
    decreases end
  {
    if end == 0 then 0
    else
      var m := LeadingSpace(s, end - 1);
      if m == end - 1 && IsPySpace(s[end - 1]) then end else m
  }

  /** How many characters at the end of `s` are whitespace. */
  function TrailingSpace(s: string): (n: nat)
    ensures n <= |s|
    ensures forall k :: |s| - n <= k < |s| ==> IsPySpace(s[k])
    ensures n == |s| || !IsPySpace(s[|s| - n - 1])
  {
    if s == [] || !IsPySpace(s[|s| - 1]) then 0
    else
      var m := TrailingSpace(s[..|s| - 1]);
      assert forall k :: |s| - 1 - m <= k < |s| - 1 ==> s[k] == s[..|s| - 1][k];
      m + 1
  }

  /**
   * `s.strip()`: the part of `s` between its leading and its trailing
   * whitespace, starting and ending with a non-whitespace character.
   */
  function Strip(s: string): (r: string)
    ensures var i := LeadingSpace(s, |s|);
      && i + |r| <= |s| && r == s[i..i + |r|]
      && (forall k :: 0 <= k < i ==> IsPySpace(s[k]))
      && (forall k :: i + |r| <= k < |s| ==> IsPySpace(s[k]))
    ensures r == [] || (!IsPySpace(r[0]) && !IsPySpace(r[|r| - 1]))
  {
    var lead := LeadingSpace(s, |s|);
    var trail := TrailingSpace(s);
    if lead == |s| then ""
    else
      assert s[|s| - trail - 1] == s[|s| - 1 - trail];
      s[lead..|s| - trail]
  }

  /** Stripping twice is stripping once. */
  lemma StripIdempotent(s: string)
    ensures Strip(Strip(s)) == Strip(s)
  {
    var r := Strip(s);
    if r != [] {
      assert LeadingSpace(r, |r|) == 0;
      assert TrailingSpace(r) == 0;
      assert r[0..|r|] == r;
    }
  }

  /**
   * `improve_single_text_with_ia(text)`: "" for an empty or missing text,
   * without asking the model; the stripped reply on success; the text itself,
   * unchanged, when the call raised (a None content fails at `.strip()`).
   */
  function ImproveSingleText(text: Option<string>, completion: Completion): (r: string)
    ensures text.None? || text.value == "" ==> r == ""
    ensures text.Some? && text.value != "" && completion.Reply? && completion.content.Some? ==>
      r == Strip(completion.content.value)
    ensures text.Some? && text.value != "" && !(completion.Reply? && completion.content.Some?) ==>
      r == text.value
  {
    if text.None? || text.value == "" then ""
    else
      match completion
      case Reply(Some(content)) => Strip(content)
      case _ => text.value
  }
}
