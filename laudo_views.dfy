/**
 * The two renderings of one report in LaudoForm.js: the editable form, which
 * shows every finding, and the hidden print template that is rasterised for
 * the PDF, which shows only the filled-in findings.
 */
module LaudoViews {
  import opened Wrappers
  import opened OrderedMap
  import opened Text
  import opened Laudo

  // ---------------------------------------------------------------- labels

  /** RegExp `\w` without the `u` flag: `[A-Za-z0-9_]` (section 22.2.2.9 of ECMA-262). */
  predicate IsWordChar(c: char) {
    'a' <= c <= 'z' || 'A' <= c <= 'Z' || '0' <= c <= '9' || c == '_'
  }

  /** `\b\w` matches at `i`: a word character whose predecessor, if any, is not one. */
  predicate WordStartAt(s: string, i: nat)
    requires i < |s|
  {
    IsWordChar(s[i]) && (i == 0 || !IsWordChar(s[i - 1]))
  }

  /** `toUpperCase` of the one ASCII word character a `\w` match yields. */
  function ToUpperAscii(c: char): char {
    if 'a' <= c <= 'z' then (c as int - 32) as char else c
  }

  /** `s.replace(/\b\w/g, char => char.toUpperCase())`. */
  function UpperWordStarts(s: string): (r: string)
    ensures |r| == |s|
    ensures forall i :: 0 <= i < |s| ==> r[i] == if WordStartAt(s, i) then ToUpperAscii(s[i]) else s[i]
  {
    if s == [] then []
    else
      var n := |s| - 1;
      var init := UpperWordStarts(s[..n]);
      assert forall i :: 0 <= i < n ==> WordStartAt(s[..n], i) == WordStartAt(s, i);
      init + [if WordStartAt(s, n) then ToUpperAscii(s[n]) else s[n]]
  }

  /** An ASCII letter or digit: a word character once underscores are spaces. */
  predicate IsAlnumAscii(c: char) {
    IsWordChar(c) && c != '_'
  }

  /** Position `i` of a key starts a word of its label. */
  predicate LabelWordStartAt(key: string, i: nat)
    requires i < |key|
  {
    IsAlnumAscii(key[i]) && (i == 0 || !IsAlnumAscii(key[i - 1]))
  }

  /**
   * `formatLabel`: underscores become spaces and the first ASCII letter of
   * every run of ASCII letters and digits is upper-cased. Only ASCII counts as
   * a word character, so a letter right after `ç` or `í` starts a word too.
   */
  function FormatLabel(key: string): (caption: string)
    ensures |caption| == |key|
    ensures '_' !in caption
    ensures forall i :: 0 <= i < |key| ==>
      caption[i] == if key[i] == '_' then ' '
                  else if LabelWordStartAt(key, i) then ToUpperAscii(key[i])
                  else key[i]
  {
    var spaced := ReplaceAll(key, '_', ' ');
    assert forall i :: 0 <= i < |key| ==> IsWordChar(spaced[i]) == IsAlnumAscii(key[i]);
    UpperWordStarts(spaced)
  }

  /** Formatting a label again changes nothing. */
  lemma FormatLabelIdempotent(key: string)
    ensures FormatLabel(FormatLabel(key)) == FormatLabel(key)
  {
    var caption := FormatLabel(key);
    forall i | 0 <= i < |key| ensures IsAlnumAscii(caption[i]) == IsAlnumAscii(key[i]) {
    }
    forall i | 0 <= i < |key| ensures FormatLabel(caption)[i] == caption[i] {
      assert LabelWordStartAt(caption, i) == LabelWordStartAt(key, i);
    }
  }

  /** A non-empty word of lower-case ASCII letters. */
  predicate IsLowerWord(w: string) {
    w != [] && forall i :: 0 <= i < |w| ==> 'a' <= w[i] <= 'z'
  }

  /** A snake_case key of two lower-case words becomes two capitalised words. */
  lemma SnakeCaseLabel(w1: string, w2: string)
    requires IsLowerWord(w1) && IsLowerWord(w2)
    ensures FormatLabel(w1 + "_" + w2) == [ToUpperAscii(w1[0])] + w1[1..] + " " + [ToUpperAscii(w2[0])] + w2[1..]
  {
    var key := w1 + "_" + w2;
    var expected := [ToUpperAscii(w1[0])] + w1[1..] + " " + [ToUpperAscii(w2[0])] + w2[1..];
    var n := |w1|;
    forall i | 0 <= i < |key| ensures FormatLabel(key)[i] == expected[i] {
      if i == 0 {
        assert key[0] == w1[0] && expected[0] == ToUpperAscii(w1[0]);
      } else if i < n {
        assert key[i] == w1[i] && key[i - 1] == w1[i - 1] && expected[i] == w1[i];
      } else if i == n {
        assert key[i] == '_' && expected[i] == ' ';
      } else if i == n + 1 {
        assert key[i] == w2[0] && key[i - 1] == '_' && expected[i] == ToUpperAscii(w2[0]);
      } else {
        assert key[i] == w2[i - n - 1] && key[i - 1] == w2[i - n - 2] && expected[i] == w2[i - n - 1];
      }
    }
  }

  /** `\w` is ASCII only: the letter after `ç` is upper-cased as a word start. */
  lemma FormatLabelNonAsciiExample()
    ensures FormatLabel("baço") == "BaçO"
  {
    var key := "baço";
    var b := FormatLabel(key);
    assert LabelWordStartAt(key, 0) && !LabelWordStartAt(key, 1) && !LabelWordStartAt(key, 2) && LabelWordStartAt(key, 3);
    assert ToUpperAscii('b') == 'B' && ToUpperAscii('o') == 'O';
    assert b[0] == 'B' && b[1] == 'a' && b[2] == 'ç' && b[3] == 'O';
  }

  // ------------------------------------------------------- editable form

  /** One `form-group` of the findings section: `<label>` and `<textarea name={key}>`. */
  datatype EditableRow = EditableRow(key: string, caption: string, value: string)

  /** `Object.keys(orgaos).map(...)`: one row per finding, empty ones included, in order. */
  function EditableRows(orgaos: Entries<string>): (rows: seq<EditableRow>)
    ensures |rows| == |orgaos|
    ensures forall i :: 0 <= i < |orgaos| ==>
      rows[i] == EditableRow(orgaos[i].0, FormatLabel(orgaos[i].0), orgaos[i].1)
  {
    if orgaos == [] then []
    else [EditableRow(orgaos[0].0, FormatLabel(orgaos[0].0), orgaos[0].1)] + EditableRows(orgaos[1..])
  }

  /** The visible form: the name input, the findings, the conclusion and the save button. */
  datatype FormView = FormView(
    nome: string,
    rows: seq<EditableRow>,
    conclusao: string,
    saveCaption: string,
    saveDisabled: bool)

  function EditableView(l: Laudo, isSaving: bool): (v: FormView)
    ensures Keys(l.orgaos) == seq(|v.rows|, i requires 0 <= i < |v.rows| => v.rows[i].key)
    ensures v.saveDisabled == isSaving
  {
    FormView(
      l.paciente.nome,
      EditableRows(l.orgaos),
      l.conclusao,
      if isSaving then "Gerando PDF..." else "Salvar e Gerar PDF",
      isSaving)
  }

  // ------------------------------------------------------- print template

  /** One row of the findings table: `<tr key={key}>`, the caption with a colon, the text. */
  datatype PrintRow = PrintRow(key: string, caption: string, text: string)

  /**
   * `Object.entries(orgaos).map(([key, value]) => value ? <tr/> : null)`:
   * React drops the `null`s, so only filled-in findings get a row.
   */
  function PrintRows(orgaos: Entries<string>): (rows: seq<PrintRow>)
    ensures |rows| <= |orgaos|
    ensures forall r :: r in rows ==> r.text != "" && r.caption == FormatLabel(r.key) + ":"
  {
    if orgaos == [] then []
    else
      (if orgaos[0].1 != "" then [PrintRow(orgaos[0].0, FormatLabel(orgaos[0].0) + ":", orgaos[0].1)] else [])
      + PrintRows(orgaos[1..])
  }

  /** What the print template makes of the form's rows: drop empty ones, add the colon. */
  function PrintedFrom(rows: seq<EditableRow>): seq<PrintRow> {
    if rows == [] then []
    else
      (if rows[0].value != "" then [PrintRow(rows[0].key, rows[0].caption + ":", rows[0].value)] else [])
      + PrintedFrom(rows[1..])
  }

  /** The print rows are the editable rows with the empty findings left out. */
  lemma {:induction false} PrintRowsFromEditableRows(orgaos: Entries<string>)
    ensures PrintRows(orgaos) == PrintedFrom(EditableRows(orgaos))
  {
    if orgaos != [] {
      var rows := EditableRows(orgaos);
      assert rows[1..] == EditableRows(orgaos[1..]);
      PrintRowsFromEditableRows(orgaos[1..]);
    }
  }

  /** A row is printed exactly when some finding with that key and a non-empty text exists. */
  lemma {:induction false} PrintRowMembership(orgaos: Entries<string>, r: PrintRow)
    ensures r in PrintRows(orgaos) <==>
      exists i :: 0 <= i < |orgaos| && orgaos[i].1 != "" &&
        r == PrintRow(orgaos[i].0, FormatLabel(orgaos[i].0) + ":", orgaos[i].1)
  {
    if orgaos != [] {
      PrintRowMembership(orgaos[1..], r);
      if r in PrintRows(orgaos[1..]) {
        var i :| 0 <= i < |orgaos[1..]| && orgaos[1..][i].1 != "" &&
          r == PrintRow(orgaos[1..][i].0, FormatLabel(orgaos[1..][i].0) + ":", orgaos[1..][i].1);
        assert orgaos[1..][i] == orgaos[i + 1];
      }
      if exists i :: 0 <= i < |orgaos| && orgaos[i].1 != "" &&
          r == PrintRow(orgaos[i].0, FormatLabel(orgaos[i].0) + ":", orgaos[i].1) {
        var i :| 0 <= i < |orgaos| && orgaos[i].1 != "" &&
          r == PrintRow(orgaos[i].0, FormatLabel(orgaos[i].0) + ":", orgaos[i].1);
        if i > 0 {
          assert orgaos[1..][i - 1] == orgaos[i];
        }
      }
    }
  }

  /** `a` is `b` with some elements left out, order kept. */
  predicate IsSubsequence<T(==)>(a: seq<T>, b: seq<T>) {
    if a == [] then true
    else if b == [] then false
    else if a[0] == b[0] then IsSubsequence(a[1..], b[1..])
    else IsSubsequence(a, b[1..])
  }

  /** The (key, text) pairs of the printed rows. */
  function PrintedPairs(rows: seq<PrintRow>): Entries<string> {
    if rows == [] then [] else [(rows[0].key, rows[0].text)] + PrintedPairs(rows[1..])
  }

  /**
   * The printed findings are a subsequence of `orgaos`, and so of the
   * editable rows, which show every pair of `orgaos` in the same order.
   */
  lemma {:induction false} PrintRowsSubsequence(orgaos: Entries<string>)
    ensures IsSubsequence(PrintedPairs(PrintRows(orgaos)), orgaos)
  {
    if orgaos != [] {
      PrintRowsSubsequence(orgaos[1..]);
      var tail := PrintedPairs(PrintRows(orgaos[1..]));
      if orgaos[0].1 != "" {
        var rows := PrintRows(orgaos);
        assert rows[1..] == PrintRows(orgaos[1..]);
        assert PrintedPairs(rows) == [orgaos[0]] + tail;
        assert ([orgaos[0]] + tail)[1..] == tail;
      } else if tail != [] {
        assert PrintRows(orgaos) == PrintRows(orgaos[1..]);
        var r := PrintRows(orgaos[1..])[0];
        assert r in PrintRows(orgaos[1..]);
        assert tail[0] == (r.key, r.text) != orgaos[0];
      }
    }
  }

  const ReportTitle := "Laudo de Ultrassonografia"
  const SignatureLine := "Dr(a). Médico(a) Responsável"

  /** The sections of the print template, top to bottom. */
  datatype Block =
    | Header(title: string, generatedOn: string)
    | PatientBlock(nome: string)
    | FindingsBlock(rows: seq<PrintRow>)
    | ConclusionBlock(text: string)
    | SignatureBlock(line: string)

  /**
   * The print template for report `l` on date `today` (the
   * `toLocaleDateString('pt-BR')` of the rendering): header, patient, the
   * findings table, the conclusion only when it is non-empty, and always the
   * signature line last.
   */
  function PrintView(l: Laudo, today: string): (v: seq<Block>)
    ensures |v| == if l.conclusao != "" then 5 else 4
    ensures v[0] == Header(ReportTitle, today) && v[1] == PatientBlock(l.paciente.nome)
    ensures v[2] == FindingsBlock(PrintRows(l.orgaos))
    ensures v[|v| - 1] == SignatureBlock(SignatureLine)
    ensures (exists b :: b in v && b.ConclusionBlock?) <==> l.conclusao != ""
    ensures forall b :: b in v && b.ConclusionBlock? ==> b.text == l.conclusao
  {
    var conclusion := if l.conclusao != "" then [ConclusionBlock(l.conclusao)] else [];
    var v := [Header(ReportTitle, today), PatientBlock(l.paciente.nome), FindingsBlock(PrintRows(l.orgaos))]
      + conclusion + [SignatureBlock(SignatureLine)];
    assert l.conclusao != "" ==> v[3] == ConclusionBlock(l.conclusao);
    assert forall b :: b in v && b.ConclusionBlock? ==> b in conclusion;
    v
  }

  /**
   * Both renderings come from the same report and agree on its content: the
   * same name, the printed findings are the form's non-empty ones, and the
   * printed conclusion, if any, is the form's.
   */
  lemma ViewsAgree(l: Laudo, today: string, isSaving: bool)
    ensures PrintView(l, today)[1] == PatientBlock(EditableView(l, isSaving).nome)
    ensures PrintView(l, today)[2] == FindingsBlock(PrintedFrom(EditableView(l, isSaving).rows))
    ensures ConclusionBlock(EditableView(l, isSaving).conclusao) in PrintView(l, today) <==> l.conclusao != ""
  {
    PrintRowsFromEditableRows(l.orgaos);
  }
}
