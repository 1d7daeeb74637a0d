/** The admin table of cargo motorcycles. Its form has three specification
    fields that are stored as members of the free-form `specs` JSON column. */
module DashboardMotocargueros {
  import opened Common
  import opened Numbers
  import opened Records
  import Rows

  datatype MotocargueroForm = MotocargueroForm(
    name: string,
    description: string,
    image_url: string,
    price: string,
    motor: string,
    carga: string,
    combustible: string,
    is_active: bool)

  const BlankForm := MotocargueroForm("", "", "", "", "", "", "", true)

  /** The record handleSubmit sends. */
  datatype MotocargueroInput = MotocargueroInput(
    name: string,
    description: Option<string>,
    image_url: Option<string>,
    price: Option<Parsed<real>>,
    specs: map<string, string>,
    is_active: bool)

  /** The specs object filled field by field: a member is present exactly
      when its form field is not empty, and holds what was typed. */
  function SpecsOf(f: MotocargueroForm): (s: map<string, string>)
    ensures s.Keys <= {"motor", "carga", "combustible"}
    ensures "motor" in s <==> f.motor != ""
    ensures "carga" in s <==> f.carga != ""
    ensures "combustible" in s <==> f.combustible != ""
    ensures "motor" in s ==> s["motor"] == f.motor
    ensures "carga" in s ==> s["carga"] == f.carga
    ensures "combustible" in s ==> s["combustible"] == f.combustible
  {
    var withMotor := if f.motor != "" then map["motor" := f.motor] else map[];
    var withCarga := if f.carga != "" then withMotor["carga" := f.carga] else withMotor;
    if f.combustible != "" then withCarga["combustible" := f.combustible] else withCarga
  }

  /** The record built from the form; `parsedPrice` is what `parseFloat`
      reads from the price field. */
  function Submitted(f: MotocargueroForm, parsedPrice: Parsed<real>): (d: MotocargueroInput)
    ensures d.name == f.name && d.is_active == f.is_active && d.specs == SpecsOf(f)
    ensures OrElse(d.description, "") == f.description && d.description != Some("")
    ensures OrElse(d.image_url, "") == f.image_url && d.image_url != Some("")
    ensures d.price.None? <==> f.price == ""
    ensures f.price != "" ==> d.price == Some(parsedPrice)
  {
    MotocargueroInput(
      f.name,
      NullIfEmpty(f.description),
      NullIfEmpty(f.image_url),
      if f.price != "" then Some(parsedPrice) else None,
      SpecsOf(f),
      f.is_active)
  }

  /** `{ ...m, ...data, updated_at: now }`. */
  function WithInput(m: Motocarguero, d: MotocargueroInput, now: int): (w: Motocarguero)
    ensures w.id == m.id && w.is_featured == m.is_featured && w.created_at == m.created_at
    ensures w.updated_at == now && w.specs == JObject(d.specs)
  {
    m.(name := d.name, description := d.description, image_url := d.image_url,
       price := d.price, specs := JObject(d.specs), is_active := Some(d.is_active),
       updated_at := now)
  }

  /** `specs.key`: a member of an object; any other JSON value has none. */
  function SpecField(specs: Json, key: string): (v: Option<string>)
    ensures v.Some? <==> specs.JObject? && key in specs.fields
  {
    if specs.JObject? && key in specs.fields then Some(specs.fields[key]) else None
  }

  /** `specs || {}`: the falsy JSON values read as the empty object. */
  function SpecsOrEmpty(specs: Json): (s: Json)
    ensures forall key :: SpecField(s, key) == SpecField(specs, key)
  {
    match specs
    case JNull => JObject(map[])
    case JBool(b) => if b then specs else JObject(map[])
    case JNumber(n) => if n != 0.0 then specs else JObject(map[])
    case JString(t) => if t != "" then specs else JObject(map[])
    case _ => specs
  }

  /** getSpecs: an object (or array, which JavaScript also calls an object)
      is used as it is, anything else as the empty specs. */
  function GetSpecs(specs: Json): (s: Json)
    ensures specs.JObject? || specs.JArray? ==> s == specs
    ensures !(specs.JObject? || specs.JArray?) ==> s == JObject(map[])
  {
    if specs.JObject? || specs.JArray? then specs else JObject(map[])
  }

  /** The table reads the same specification through getSpecs as the
      column holds: getSpecs never hides or invents a member. */
  lemma GetSpecsKeepsFields(specs: Json, key: string)
    ensures SpecField(GetSpecs(specs), key) == SpecField(specs, key)
  {
  }

  /** handleEdit's form for a row; `priceText` is `price.toString()`. */
  function LoadForm(m: Motocarguero, priceText: string): (f: MotocargueroForm)
    ensures f.name == m.name
    ensures f.description == OrElse(m.description, "") && f.image_url == OrElse(m.image_url, "")
    ensures f.price == if m.price.None? then "" else priceText
    ensures f.motor == OrElse(SpecField(m.specs, "motor"), "")
    ensures f.carga == OrElse(SpecField(m.specs, "carga"), "")
    ensures f.combustible == OrElse(SpecField(m.specs, "combustible"), "")
    ensures f.is_active == (m.is_active != Some(false))
  {
    var specs := SpecsOrEmpty(m.specs);
    MotocargueroForm(
      m.name,
      OrElse(m.description, ""),
      OrElse(m.image_url, ""),
      if m.price.Some? then priceText else "",
      OrElse(SpecField(specs, "motor"), ""),
      OrElse(SpecField(specs, "carga"), ""),
      OrElse(SpecField(specs, "combustible"), ""),
      match m.is_active case Some(b) => b case None => true)
  }

  /** Submitting a form and opening the saved row again shows the same form
      (the price is left to the number formatting). */
  lemma SubmitThenEdit(f: MotocargueroForm, parsedPrice: Parsed<real>, m: Motocarguero, now: int, priceText: string)
    ensures var g := LoadForm(WithInput(m, Submitted(f, parsedPrice), now), priceText);
      g == f.(price := g.price)
  {
    var s := SpecsOf(f);
    assert SpecField(JObject(s), "motor") == NullIfEmpty(f.motor);
    assert SpecField(JObject(s), "carga") == NullIfEmpty(f.carga);
    assert SpecField(JObject(s), "combustible") == NullIfEmpty(f.combustible);
  }

  /** Opening a row whose specs are an object and saving it unchanged keeps
      its three specification members that hold text and drops every other
      member. */
  lemma EditThenSubmitSpecs(m: Motocarguero, priceText: string, parsedPrice: Parsed<real>)
    requires m.specs.JObject?
    ensures var s := Submitted(LoadForm(m, priceText), parsedPrice).specs;
      s == map key | key in m.specs.fields && key in {"motor", "carga", "combustible"} && m.specs.fields[key] != "" :: m.specs.fields[key]
  {
    var s := Submitted(LoadForm(m, priceText), parsedPrice).specs;
    var fields := m.specs.fields;
    var expected := map key | key in fields && key in {"motor", "carga", "combustible"} && fields[key] != "" :: fields[key];
    assert s.Keys == expected.Keys;
  }

  class MotocargueroTable {
    var motocargueros: seq<Motocarguero>
    var isDialogOpen: bool
    var editingMotocarguero: Option<Motocarguero>
    var formData: MotocargueroForm

    constructor (initialData: seq<Motocarguero>)
      ensures motocargueros == initialData && !isDialogOpen
      ensures editingMotocarguero == None && formData == BlankForm
    {
      motocargueros := initialData;
      isDialogOpen := false;
      editingMotocarguero := None;
      formData := BlankForm;
    }

    /** resetForm. */
    method ResetForm()
      modifies this
      ensures formData == BlankForm && editingMotocarguero == None && !isDialogOpen
      ensures motocargueros == old(motocargueros)
    {
      formData := BlankForm;
      editingMotocarguero := None;
      isDialogOpen := false;
    }

    /** The "Agregar Motocarguero" button. */
    method OpenCreate()
      modifies this
      ensures formData == BlankForm && editingMotocarguero == None && isDialogOpen
      ensures motocargueros == old(motocargueros)
    {
      ResetForm();
      isDialogOpen := true;
    }

    /** handleSubmit: `sent` is what went to the update (when editing) or
      create call, which answered `result`. Only an update that succeeded
      changes the list; the form is reset whatever the outcome. */
    method HandleSubmit(parsedPrice: Parsed<real>, result: ActionResult, now: int) returns (sent: MotocargueroInput, toast: Toast, reload: bool)
      modifies this
      ensures sent == Submitted(old(formData), parsedPrice)
      ensures old(editingMotocarguero).Some? && result.success ==>
        |motocargueros| == |old(motocargueros)| &&
        forall i :: 0 <= i < |motocargueros| ==>
          motocargueros[i] == if old(motocargueros)[i].id == old(editingMotocarguero).value.id
                              then WithInput(old(motocargueros)[i], sent, now)
                              else old(motocargueros)[i]
      ensures old(editingMotocarguero).None? || !result.success ==> motocargueros == old(motocargueros)
      ensures reload <==> old(editingMotocarguero).None? && result.success
      ensures toast == if old(editingMotocarguero).Some? then
                         (if result.success then SuccessToast("Motocarguero actualizado correctamente")
                          else FailureToast(result, "Error al actualizar"))
                       else
                         (if result.success then SuccessToast("Motocarguero creado correctamente")
                          else FailureToast(result, "Error al crear"))
      ensures formData == BlankForm && editingMotocarguero == None && !isDialogOpen
    {
      var data := Submitted(formData, parsedPrice);
      sent := data;
      reload := false;
      match editingMotocarguero {
        case Some(editing) =>
          if result.success {
            motocargueros := Rows.ReplaceMatching(motocargueros, MotocargueroId, editing.id, m => WithInput(m, data, now));
            toast := SuccessToast("Motocarguero actualizado correctamente");
          } else {
            toast := FailureToast(result, "Error al actualizar");
          }
        case None =>
          if result.success {
            toast := SuccessToast("Motocarguero creado correctamente");
            reload := true;
          } else {
            toast := FailureToast(result, "Error al crear");
          }
      }
      ResetForm();
    }

    /** handleEdit. */
    method HandleEdit(motocarguero: Motocarguero, priceText: string)
      modifies this
      ensures editingMotocarguero == Some(motocarguero) && isDialogOpen
      ensures formData == LoadForm(motocarguero, priceText)
      ensures motocargueros == old(motocargueros)
    {
      editingMotocarguero := Some(motocarguero);
      formData := LoadForm(motocarguero, priceText);
      isDialogOpen := true;
    }

    /** handleDelete. */
    method HandleDelete(id: Id, confirmed: bool, result: ActionResult) returns (toast: Option<Toast>)
      modifies this
      ensures !confirmed ==> toast == None && motocargueros == old(motocargueros)
      ensures confirmed && result.success ==>
        motocargueros == Rows.Reject(old(motocargueros), MotocargueroId, [id]) &&
        toast == Some(SuccessToast("Motocarguero eliminado correctamente"))
      ensures confirmed && !result.success ==>
        motocargueros == old(motocargueros) && toast == Some(FailureToast(result, "Error al eliminar"))
      ensures formData == old(formData) && editingMotocarguero == old(editingMotocarguero)
      ensures isDialogOpen == old(isDialogOpen)
    {
      if !confirmed {
        return None;
      }
      if result.success {
        motocargueros := Rows.Reject(motocargueros, MotocargueroId, [id]);
        toast := Some(SuccessToast("Motocarguero eliminado correctamente"));
      } else {
        toast := Some(FailureToast(result, "Error al eliminar"));
      }
    }
  }
}
