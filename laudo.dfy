/**
 * The report ("laudo") that the form edits: the patient's name, the findings
 * per organ (`orgaos`, key to text, in property order) and the conclusion.
 */
module Laudo {
  import opened Wrappers
  import opened OrderedMap
  import opened Json

  datatype Paciente = Paciente(nome: string)

  datatype Laudo = Laudo(paciente: Paciente, orgaos: Entries<string>, conclusao: string)

  /** `orgaos` is an object, so its keys are distinct. */
  predicate Valid(l: Laudo) {
    UniqueKeys(l.orgaos)
  }

  /** The `section` argument of `handleInputChange`: 'paciente', 'orgaos' or none. */
  datatype Section = PacienteSection | OrgaosSection

  /**
   * The new `formData` after `handleInputChange(e, section)` with
   * `e.target.name == name` and `e.target.value == value`: with a section,
   * `{ ...prev, [section]: { ...prev[section], [name]: value } }`, without one
   * `{ ...prev, [name]: value }`. The form's only input in section 'paciente'
   * is named "nome" and its only input without a section is named "conclusao".
   */
  function Edit(l: Laudo, section: Option<Section>, name: string, value: string): (r: Laudo)
    requires section == Some(PacienteSection) ==> name == "nome"
    requires section == None ==> name == "conclusao"
    ensures section == Some(OrgaosSection) ==>
      && r.paciente == l.paciente && r.conclusao == l.conclusao
      && Get(r.orgaos, name) == Some(value)
      && (forall k :: k != name ==> Get(r.orgaos, k) == Get(l.orgaos, k))
    ensures section == Some(OrgaosSection) && name in Keys(l.orgaos) ==> Keys(r.orgaos) == Keys(l.orgaos)
    ensures section == Some(OrgaosSection) && name !in Keys(l.orgaos) ==> Keys(r.orgaos) == Keys(l.orgaos) + [name]
    ensures section == Some(PacienteSection) ==>
      r.paciente.nome == value && r.orgaos == l.orgaos && r.conclusao == l.conclusao
    ensures section == None ==>
      r.conclusao == value && r.paciente == l.paciente && r.orgaos == l.orgaos
    ensures Valid(l) ==> Valid(r)
  {
    match section
    case Some(PacienteSection) => l.(paciente := l.paciente.(nome := value))
    case Some(OrgaosSection) =>
      AssignReads(l.orgaos, name, value);
      AssignUnique(l.orgaos, name, value);
      l.(orgaos := Assign(l.orgaos, name, value))
    case None => l.(conclusao := value)
  }

  /**
   * Editing the text of finding `i` of a valid report rewrites that one
   * finding in place: same keys, same order, every other text unchanged.
   */
  lemma EditFindingInPlace(l: Laudo, i: nat, value: string)
    requires Valid(l) && i < |l.orgaos|
    ensures Edit(l, Some(OrgaosSection), l.orgaos[i].0, value).orgaos == l.orgaos[i := (l.orgaos[i].0, value)]
  {
    AssignExisting(l.orgaos, i, value);
  }

  /** The findings as JSON string values. */
  function FindingsToJson(e: Entries<string>): (r: Entries<Json>)
    ensures Keys(r) == Keys(e)
    ensures |r| == |e| && forall i :: 0 <= i < |e| ==> r[i] == (e[i].0, JStr(e[i].1))
  {
    if e == [] then [] else [(e[0].0, JStr(e[0].1))] + FindingsToJson(e[1..])
  }

  /** Findings read back from a JSON object; None unless every value is a string. */
  function FindingsFromJson(e: Entries<Json>): (r: Option<Entries<string>>)
    ensures r.Some? <==> forall i :: 0 <= i < |e| ==> e[i].1.JStr?
    ensures r.Some? ==> |r.value| == |e| && forall i :: 0 <= i < |e| ==> r.value[i] == (e[i].0, e[i].1.s)
  {
    if e == [] then Some([])
    else match (e[0].1, FindingsFromJson(e[1..]))
      case (JStr(s), Some(rest)) => Some([(e[0].0, s)] + rest)
      case _ => None
  }

  /** The report as the JSON object `laudo_estruturado` the backend sends. */
  function Encode(l: Laudo): Json {
    JObj([
      ("paciente", JObj([("nome", JStr(l.paciente.nome))])),
      ("orgaos", JObj(FindingsToJson(l.orgaos))),
      ("conclusao", JStr(l.conclusao))
    ])
  }

  /**
   * The report the form reads out of `laudoData`: `paciente.nome`,
   * `Object.entries(orgaos)` and `conclusao`, all strings. Other shapes give None.
   */
  function Decode(j: Json): (r: Option<Laudo>)
    ensures r.Some? <==>
      && Member(Member(j, "paciente"), "nome").JStr?
      && Member(j, "orgaos").JObj?
      && Member(j, "conclusao").JStr?
      && forall i :: 0 <= i < |Member(j, "orgaos").fields| ==> Member(j, "orgaos").fields[i].1.JStr?
    ensures r.Some? ==>
      && Member(Member(j, "paciente"), "nome") == JStr(r.value.paciente.nome)
      && Member(j, "conclusao") == JStr(r.value.conclusao)
      && FindingsToJson(r.value.orgaos) == Member(j, "orgaos").fields
  {
    var nome := Member(Member(j, "paciente"), "nome");
    var orgaos := Member(j, "orgaos");
    var conclusao := Member(j, "conclusao");
    if nome.JStr? && orgaos.JObj? && conclusao.JStr? then
      match FindingsFromJson(orgaos.fields)
      case Some(findings) =>
        FindingsJsonRoundTrip(orgaos.fields);
        Some(Laudo(Paciente(nome.s), findings, conclusao.s))
      case None => None
    else None
  }

  /** A JSON object of strings read as findings and written back is the same object. */
  lemma {:induction false} FindingsJsonRoundTrip(e: Entries<Json>)
    ensures FindingsFromJson(e).Some? ==> FindingsToJson(FindingsFromJson(e).value) == e
  {
    if e != [] && FindingsFromJson(e).Some? {
      FindingsJsonRoundTrip(e[1..]);
      var f := FindingsFromJson(e).value;
      assert f == [(e[0].0, e[0].1.s)] + FindingsFromJson(e[1..]).value;
      assert f[1..] == FindingsFromJson(e[1..]).value;
      assert FindingsToJson(f) == [(e[0].0, JStr(e[0].1.s))] + FindingsToJson(f[1..]);
    }
  }

  lemma {:induction false} FindingsRoundTrip(e: Entries<string>)
    ensures FindingsFromJson(FindingsToJson(e)) == Some(e)
  {
    if e != [] {
      FindingsRoundTrip(e[1..]);
      var j := FindingsToJson(e);
      assert j[0] == (e[0].0, JStr(e[0].1)) && j[1..] == FindingsToJson(e[1..]);
      assert [(e[0].0, e[0].1)] + e[1..] == e;
    }
  }

  /** What the backend sends is what the form shows: decoding undoes encoding. */
  lemma DecodeEncode(l: Laudo)
    ensures Decode(Encode(l)) == Some(l)
  {
    FindingsRoundTrip(l.orgaos);
    EncodeMembers(l);
  }

  /** The three members the form reads out of an encoded report. */
  lemma EncodeMembers(l: Laudo)
    ensures Member(Encode(l), "paciente") == JObj([("nome", JStr(l.paciente.nome))])
    ensures Member(Encode(l), "orgaos") == JObj(FindingsToJson(l.orgaos))
    ensures Member(Encode(l), "conclusao") == JStr(l.conclusao)
  {
    var j := Encode(l);
    var rest := j.fields[1..];
    assert rest[0].0 == "orgaos" && rest[1..][0].0 == "conclusao";
    assert Get(j.fields, "orgaos") == Get(rest, "orgaos");
    assert Get(j.fields, "conclusao") == Get(rest, "conclusao") == Get(rest[1..], "conclusao");
  }
}
