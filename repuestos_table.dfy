/** The admin table of spare parts: a list mirrored from the backend, a form,
    the row being edited and the dialog flag. Every backend call is an input:
    the `ActionResult` the server action returned. */
module DashboardRepuestos {
  import opened Common
  import opened Numbers
  import opened Records
  import Rows

  /** The dialog's form: every field is text except the active checkbox. */
  datatype RepuestoForm = RepuestoForm(
    name: string,
    description: string,
    image_url: string,
    price: string,
    stock: string,
    category: string,
    is_active: bool)

  const BlankForm := RepuestoForm("", "", "", "", "", "", true)

  /** The record handleSubmit sends to create or update a spare part. */
  datatype RepuestoInput = RepuestoInput(
    name: string,
    description: Option<string>,
    image_url: Option<string>,
    price: Option<Parsed<real>>,
    stock: Parsed<int>,
    category: Option<string>,
    is_active: bool)

  /** The record built from the form. `parsedPrice` is what `parseFloat`
      reads from the price field. Empty text fields become null (and read
      back as the text typed), an empty price becomes null, an empty stock
      becomes 0; name and the active flag are copied. */
  function Submitted(f: RepuestoForm, parsedPrice: Parsed<real>): (d: RepuestoInput)
    ensures d.name == f.name && d.is_active == f.is_active
    ensures OrElse(d.description, "") == f.description && d.description != Some("")
    ensures OrElse(d.image_url, "") == f.image_url && d.image_url != Some("")
    ensures OrElse(d.category, "") == f.category && d.category != Some("")
    ensures d.price.None? <==> f.price == ""
    ensures f.price != "" ==> d.price == Some(parsedPrice)
    ensures d.stock == if f.stock == "" then Num(0) else ParseInt(f.stock)
  {
    RepuestoInput(
      f.name,
      NullIfEmpty(f.description),
      NullIfEmpty(f.image_url),
      if f.price != "" then Some(parsedPrice) else None,
      if f.stock != "" then ParseInt(f.stock) else Num(0),
      NullIfEmpty(f.category),
      f.is_active)
  }

  /** `{ ...r, ...data, updated_at: now }`: the submitted fields replace the
      row's, its identity, featured flag and creation time stay. */
  function WithInput(r: Repuesto, d: RepuestoInput, now: int): (w: Repuesto)
    ensures w.id == r.id && w.is_featured == r.is_featured && w.created_at == r.created_at
    ensures w.updated_at == now
  {
    r.(name := d.name, description := d.description, image_url := d.image_url,
       price := d.price, stock := Some(d.stock), category := d.category,
       is_active := Some(d.is_active), updated_at := now)
  }

  /** handleEdit's form for a row. `priceText` is `price.toString()`.
      Null text becomes "", a null stock shows "0", a null active flag
      shows checked. */
  function LoadForm(r: Repuesto, priceText: string): (f: RepuestoForm)
    ensures f.name == r.name
    ensures f.description == OrElse(r.description, "") && f.image_url == OrElse(r.image_url, "")
    ensures f.category == OrElse(r.category, "")
    ensures f.price == if r.price.None? then "" else priceText
    ensures f.stock == if r.stock.None? then "0" else IntText(r.stock.value)
    ensures f.is_active == (r.is_active != Some(false))
  {
    RepuestoForm(
      r.name,
      OrElse(r.description, ""),
      OrElse(r.image_url, ""),
      if r.price.Some? then priceText else "",
      if r.stock.Some? then IntText(r.stock.value) else "0",
      OrElse(r.category, ""),
      match r.is_active case Some(b) => b case None => true)
  }

  /** Opening a row for edit and saving it unchanged submits the row's own
      values: null stock as 0 and a null active flag as true. */
  lemma EditThenSubmit(r: Repuesto, priceText: string, parsedPrice: Parsed<real>)
    requires r.description != Some("") && r.image_url != Some("") && r.category != Some("")
    requires r.price.Some? ==> priceText != ""
    ensures var d := Submitted(LoadForm(r, priceText), parsedPrice);
      && d.name == r.name && d.description == r.description && d.image_url == r.image_url
      && d.category == r.category
      && (d.price.None? <==> r.price.None?)
      && d.stock == (if r.stock.Some? then r.stock.value else Num(0))
      && d.is_active == (r.is_active != Some(false))
  {
    if r.stock.Some? {
      ParseIntText(r.stock.value);
    } else {
      ParseIntText(Num(0));
    }
  }

  /** Submitting a form and opening the saved row again shows the same form,
      except that the stock shows the number that was read from it. */
  lemma SubmitThenEdit(f: RepuestoForm, parsedPrice: Parsed<real>, r: Repuesto, now: int, priceText: string)
    ensures var g := LoadForm(WithInput(r, Submitted(f, parsedPrice), now), priceText);
      && g.name == f.name && g.description == f.description && g.image_url == f.image_url
      && g.category == f.category && g.is_active == f.is_active
      && g.stock == (if f.stock == "" then "0" else IntText(ParseInt(f.stock)))
  {
  }

  /** The component's state. */
  class RepuestosTable {
    var repuestos: seq<Repuesto>
    var isDialogOpen: bool
    var editingRepuesto: Option<Repuesto>
    var formData: RepuestoForm

    constructor (initialData: seq<Repuesto>)
      ensures repuestos == initialData && !isDialogOpen
      ensures editingRepuesto == None && formData == BlankForm
    {
      repuestos := initialData;
      isDialogOpen := false;
      editingRepuesto := None;
      formData := BlankForm;
    }

    /** resetForm: blank form, nothing being edited, dialog closed. */
    method ResetForm()
      modifies this
      ensures formData == BlankForm && editingRepuesto == None && !isDialogOpen
      ensures repuestos == old(repuestos)
    {
      formData := BlankForm;
      editingRepuesto := None;
      isDialogOpen := false;
    }

    /** The "Agregar Repuesto" button: a blank create dialog. */
    method OpenCreate()
      modifies this
      ensures formData == BlankForm && editingRepuesto == None && isDialogOpen
      ensures repuestos == old(repuestos)
    {
      ResetForm();
      isDialogOpen := true;
    }

    /** handleSubmit: `sent` is what went to the update (when editing) or
      create call, which answered `result`. Only an update that succeeded
      changes the list, and only the rows with the edited id; a create that
      succeeded reloads the page. The form is reset whatever the outcome. */
    method HandleSubmit(parsedPrice: Parsed<real>, result: ActionResult, now: int) returns (sent: RepuestoInput, toast: Toast, reload: bool)
      modifies this
      ensures sent == Submitted(old(formData), parsedPrice)
      ensures old(editingRepuesto).Some? && result.success ==>
        |repuestos| == |old(repuestos)| &&
        forall i :: 0 <= i < |repuestos| ==>
          repuestos[i] == if old(repuestos)[i].id == old(editingRepuesto).value.id
                          then WithInput(old(repuestos)[i], sent, now)
                          else old(repuestos)[i]
      ensures old(editingRepuesto).None? || !result.success ==> repuestos == old(repuestos)
      ensures reload <==> old(editingRepuesto).None? && result.success
      ensures toast == if old(editingRepuesto).Some? then
                         (if result.success then SuccessToast("Repuesto actualizado correctamente")
                          else FailureToast(result, "Error al actualizar"))
                       else
                         (if result.success then SuccessToast("Repuesto creado correctamente")
                          else FailureToast(result, "Error al crear"))
      ensures formData == BlankForm && editingRepuesto == None && !isDialogOpen
    {
      var data := Submitted(formData, parsedPrice);
      sent := data;
      reload := false;
      match editingRepuesto {
        case Some(editing) =>
          if result.success {
            repuestos := Rows.ReplaceMatching(repuestos, RepuestoId, editing.id, r => WithInput(r, data, now));
            toast := SuccessToast("Repuesto actualizado correctamente");
          } else {
            toast := FailureToast(result, "Error al actualizar");
          }
        case None =>
          if result.success {
            toast := SuccessToast("Repuesto creado correctamente");
            reload := true;
          } else {
            toast := FailureToast(result, "Error al crear");
          }
      }
      ResetForm();
    }

    /** handleEdit: the row goes into the form and the dialog opens. */
    method HandleEdit(repuesto: Repuesto, priceText: string)
      modifies this
      ensures editingRepuesto == Some(repuesto) && isDialogOpen
      ensures formData == LoadForm(repuesto, priceText)
      ensures repuestos == old(repuestos)
    {
      editingRepuesto := Some(repuesto);
      formData := LoadForm(repuesto, priceText);
      isDialogOpen := true;
    }

    /** handleDelete: nothing happens unless the admin confirms; after a
      successful delete every row with that id is gone and the others keep
      their order. The form and dialog are not touched. */
    method HandleDelete(id: Id, confirmed: bool, result: ActionResult) returns (toast: Option<Toast>)
      modifies this
      ensures !confirmed ==> toast == None && repuestos == old(repuestos)
      ensures confirmed && result.success ==>
        repuestos == Rows.Reject(old(repuestos), RepuestoId, [id]) &&
        toast == Some(SuccessToast("Repuesto eliminado correctamente"))
      ensures confirmed && !result.success ==>
        repuestos == old(repuestos) && toast == Some(FailureToast(result, "Error al eliminar"))
      ensures formData == old(formData) && editingRepuesto == old(editingRepuesto)
      ensures isDialogOpen == old(isDialogOpen)
    {
      if !confirmed {
        return None;
      }
      if result.success {
        repuestos := Rows.Reject(repuestos, RepuestoId, [id]);
        toast := Some(SuccessToast("Repuesto eliminado correctamente"));
      } else {
        toast := Some(FailureToast(result, "Error al eliminar"));
      }
    }
  }
}
