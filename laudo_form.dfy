/**
 * The LaudoForm component: its state `formData` (the report being edited)
 * and `isSaving` (a PDF export is under way), and the handlers that change them.
 */
module LaudoForm {
  import opened Wrappers
  import opened OrderedMap
  import opened Laudo
  import opened LaudoViews
  import opened LaudoExport

  /** What `pdf.save` writes: the file name and the image placed on the page. */
  datatype PdfExport = PdfExport(fileName: string, placement: Placement)

  class LaudoFormComponent {
    var formData: Laudo
    var isSaving: bool

    /** `useState(laudoData)` and `useState(false)`. */
    constructor (laudoData: Laudo)
      ensures formData == laudoData && !isSaving
    {
      formData := laudoData;
      isSaving := false;
    }

    /** The `useEffect` on `laudoData`: a new report from the parent replaces the edited one. */
    method ReceiveProps(laudoData: Laudo)
      modifies this`formData
      ensures formData == laudoData
    {
      formData := laudoData;
    }

    /** `handleInputChange(e, section)`: one field of `formData` takes the input's value. */
    method HandleInputChange(section: Option<Section>, name: string, value: string)
      requires section == Some(PacienteSection) ==> name == "nome"
      requires section == None ==> name == "conclusao"
      modifies this`formData
      ensures formData == Edit(old(formData), section, name, value)
    {
      formData := Edit(formData, section, name, value);
    }

    /**
     * `handleGeneratePdf` up to `await html2canvas(...)`: `isSaving` is set;
     * without a print template to rasterise it is cleared again and the export
     * ends. Otherwise the template of the current report, as rendered on
     * `today`, is what gets rasterised, and `isSaving` stays set. The handler's
     * closure holds the report of this render, so the patient name the file
     * will carry is fixed here and returned as `nome`.
     */
    method BeginExport(hasTemplate: bool, today: string) returns (snapshot: Option<seq<Block>>, nome: string)
      modifies this`isSaving
      ensures isSaving == hasTemplate
      ensures snapshot == if hasTemplate then Some(PrintView(formData, today)) else None
      ensures nome == formData.paciente.nome
    {
      nome := formData.paciente.nome;
      isSaving := true;
      if !hasTemplate {
        isSaving := false;
        return None, nome;
      }
      snapshot := Some(PrintView(formData, today));
    }

    /**
     * The rest of `handleGeneratePdf`, once the raster `canvas` has arrived:
     * the image is placed on an A4 page, the file is named after `nome`, the
     * patient name captured by `BeginExport` (edits typed meanwhile do not
     * rename it), and `isSaving` is cleared. If rasterisation fails this step
     * never runs and `isSaving` stays set.
     */
    method FinishExport(nome: string, canvas: Canvas) returns (pdf: PdfExport)
      modifies this`isSaving
      ensures !isSaving
      ensures pdf.fileName == FileName(nome)
      ensures pdf.placement == ImagePlacement(canvas)
    {
      pdf := PdfExport(FileName(nome), ImagePlacement(canvas));
      isSaving := false;
    }

    /** What the component renders: the editable form (the print template is `PrintView`). */
    function Render(): (v: FormView)
      reads this
      ensures v.nome == formData.paciente.nome && v.conclusao == formData.conclusao
      ensures |v.rows| == |formData.orgaos|
      ensures forall i :: 0 <= i < |v.rows| ==>
        v.rows[i].key == formData.orgaos[i].0 && v.rows[i].value == formData.orgaos[i].1
      ensures v.saveDisabled == isSaving
    {
      EditableView(formData, isSaving)
    }
  }

  /**
   * Renaming the patient while the template is being rasterised (the name
   * input stays enabled) does not rename the file being exported: it carries
   * the name the report had when the button was clicked.
   */
  method RenameDuringExport(form: LaudoFormComponent, today: string, newName: string, canvas: Canvas)
    returns (pdf: PdfExport)
    modifies form
    ensures pdf.fileName == FileName(old(form.formData.paciente.nome))
    ensures form.formData.paciente.nome == newName && !form.isSaving
  {
    var snapshot, nome := form.BeginExport(true, today);
    form.HandleInputChange(Some(PacienteSection), "nome", newName);
    pdf := form.FinishExport(nome, canvas);
  }

  /**
   * Typing into the textarea of an existing finding leaves the form with the
   * same rows in the same order; only that row's value changes.
   */
  lemma EditKeepsFormRows(l: Laudo, i: nat, value: string, isSaving: bool)
    requires Valid(l) && i < |l.orgaos|
    ensures var rows := EditableView(Edit(l, Some(OrgaosSection), l.orgaos[i].0, value), isSaving).rows;
      && |rows| == |EditableView(l, isSaving).rows|
      && rows[i].value == value
      && forall j :: 0 <= j < |rows| ==>
           rows[j].key == EditableView(l, isSaving).rows[j].key
           && (j != i ==> rows[j] == EditableView(l, isSaving).rows[j])
  {
    EditFindingInPlace(l, i, value);
    var before := l.orgaos;
    var after := before[i := (before[i].0, value)];
    assert Edit(l, Some(OrgaosSection), before[i].0, value).orgaos == after;
    var oldRows := EditableRows(before);
    var newRows := EditableRows(after);
    assert EditableView(l, isSaving).rows == oldRows;
    assert EditableView(Edit(l, Some(OrgaosSection), before[i].0, value), isSaving).rows == newRows;
    assert |newRows| == |oldRows|;
    forall j | 0 <= j < |newRows|
      ensures newRows[j].key == oldRows[j].key && (j != i ==> newRows[j] == oldRows[j])
    {
      assert after[j].0 == before[j].0;
    }
  }
}
