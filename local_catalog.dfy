/** The two catalogue pages of the dashboard that keep their products in
    browser memory only (spare parts and motorcycles). Both run the same
    code over a list of `{ id, name, description, image }` entries with
    numeric ids; they differ only in their initial lists. */
module LocalCatalog {
  import opened Common
  import Rows

  datatype Entry = Entry(id: int, name: string, description: string, image: string)

  datatype EntryForm = EntryForm(name: string, description: string, image: string)

  const BlankForm := EntryForm("", "", "")

  function EntryId(e: Entry): int { e.id }

  /** `{ ...p, ...formData }`: the form's three fields over the entry's; the
      id stays. */
  function WithForm(e: Entry, f: EntryForm): (w: Entry)
    ensures w.id == e.id
  {
    e.(name := f.name, description := f.description, image := f.image)
  }

  /** `{ id, ...formData }`. */
  function NewEntry(id: int, f: EntryForm): (e: Entry)
    ensures e.id == id
  {
    Entry(id, f.name, f.description, f.image)
  }

  /** handleEdit's form for an entry: with the entry's id it rebuilds the
      entry, so the form holds everything else the entry has. */
  function FormOf(e: Entry): (f: EntryForm)
    ensures NewEntry(e.id, f) == e
  {
    EntryForm(e.name, e.description, e.image)
  }

  /** Editing an entry and saving it unchanged leaves the entry as it was. */
  lemma EditThenSave(e: Entry)
    ensures WithForm(e, FormOf(e)) == e
  {
  }

  /** Saving a form and editing the entry again shows the same form. */
  lemma SaveThenEdit(e: Entry, f: EntryForm)
    ensures FormOf(WithForm(e, f)) == f && FormOf(NewEntry(e.id, f)) == f
  {
  }

  /** The largest id of a non-empty list. */
  function MaxId(entries: seq<Entry>): (m: int)
    requires entries != []
    ensures exists i :: 0 <= i < |entries| && entries[i].id == m
    ensures forall i :: 0 <= i < |entries| ==> entries[i].id <= m
  {
    if |entries| == 1 then entries[0].id
    else
      var rest := MaxId(entries[1..]);
      assert forall i :: 1 <= i < |entries| ==> entries[i] == entries[1..][i - 1];
      if entries[0].id >= rest then entries[0].id else rest
  }

  /** The id a new entry gets: one more than the largest id, and 1 when the
      list is empty. It is larger than every id in the list, so it is new. */
  function NextId(entries: seq<Entry>): (id: int)
    ensures forall i :: 0 <= i < |entries| ==> entries[i].id < id
    ensures entries == [] ==> id == 1
    ensures entries != [] ==> exists i :: 0 <= i < |entries| && id == entries[i].id + 1
  {
    if entries == [] then 1 else MaxId(entries) + 1
  }

  /** A JavaScript number as `Math.max` and `+ 1` produce it from ids: an
      integer, or minus infinity (the maximum of no numbers). */
  datatype JsNumber = Finite(n: int) | NegativeInfinity

  /** `Math.max(a, b)`. */
  function JsMax2(a: JsNumber, b: JsNumber): (m: JsNumber)
    ensures m == a || m == b
    ensures a.Finite? ==> m.Finite? && a.n <= m.n
    ensures b.Finite? ==> m.Finite? && b.n <= m.n
  {
    match (a, b)
    case (NegativeInfinity, _) => b
    case (_, NegativeInfinity) => a
    case (Finite(x), Finite(y)) => if x >= y then a else b
  }

  /** `Math.max(...xs)`: minus infinity for an empty list. */
  function JsMax(xs: seq<JsNumber>): (m: JsNumber)
    ensures m == NegativeInfinity <==> forall i :: 0 <= i < |xs| ==> xs[i] == NegativeInfinity
    ensures forall i :: 0 <= i < |xs| && xs[i].Finite? ==> m.Finite? && xs[i].n <= m.n
  {
    if xs == [] then NegativeInfinity
    else
      assert forall i :: 1 <= i < |xs| ==> xs[i] == xs[1..][i - 1];
      JsMax2(xs[0], JsMax(xs[1..]))
  }

  /** `x + 1`: minus infinity stays minus infinity. */
  function JsPlusOne(x: JsNumber): (y: JsNumber)
    ensures y == NegativeInfinity <==> x == NegativeInfinity
    ensures x.Finite? ==> y.Finite? && y.n == x.n + 1
  {
    match x
    case Finite(n) => Finite(n + 1)
    case NegativeInfinity => NegativeInfinity
  }

  /** The new id as the pages compute it: `Math.max(...ids) + 1`. It is
      larger than every finite id, but it is minus infinity, and so not a
      fresh id, when there is no finite id at all (an empty list). */
  function NextIdAsWritten(ids: seq<JsNumber>): (id: JsNumber)
    ensures id == NegativeInfinity <==> forall i :: 0 <= i < |ids| ==> ids[i] == NegativeInfinity
    ensures forall i :: 0 <= i < |ids| && ids[i].Finite? ==> id.Finite? && ids[i].n < id.n
  {
    JsPlusOne(JsMax(ids))
  }

  /** The ids of a list as JavaScript numbers. */
  function JsIds(entries: seq<Entry>): (ids: seq<JsNumber>)
    ensures |ids| == |entries|
    ensures forall i :: 0 <= i < |entries| ==> ids[i] == Finite(entries[i].id)
  {
    seq(|entries|, i requires 0 <= i < |entries| => Finite(entries[i].id))
  }

  /** After every entry was deleted, the next entry created gets id minus
      infinity, and so does the one after it: two entries with one id. */
  lemma DuplicateIdAfterDeletingAll()
    ensures var first := NextIdAsWritten(JsIds([]));
      && first == NegativeInfinity
      && NextIdAsWritten([first]) == first
  {
  }

  /** While the list is not empty, the pages' computation gives the id of
      `NextId`. */
  lemma {:induction false} AsWrittenAgreesWhenNotEmpty(entries: seq<Entry>)
    requires entries != []
    ensures NextIdAsWritten(JsIds(entries)) == Finite(NextId(entries))
  {
    JsMaxOfIds(entries);
  }

  lemma {:induction false} JsMaxOfIds(entries: seq<Entry>)
    requires entries != []
    ensures JsMax(JsIds(entries)) == Finite(MaxId(entries))
  {
    var ids := JsIds(entries);
    assert ids[1..] == JsIds(entries[1..]);
    if |entries| > 1 {
      JsMaxOfIds(entries[1..]);
    } else {
      assert ids[1..] == [];
    }
  }

  /** Which of the two pages. */
  datatype Catalog = PartsCatalog | MotosCatalog

  /** The list each page starts with: six entries numbered 1 to 6. */
  function InitialEntries(c: Catalog): (es: seq<Entry>)
    ensures |es| == 6 && forall i :: 0 <= i < |es| ==> es[i].id == i + 1
  {
    match c
    case PartsCatalog => [
      Entry(1, "Filtro de Aceite Premium", "Máxima protección para tu motor.", "/placeholder-parts-1.jpg"),
      Entry(2, "Kit de Bujías Iridium", "Mayor durabilidad y rendimiento óptimo.", "/placeholder-parts-2.jpg"),
      Entry(3, "Disco de Freno Ventilado", "Frenado superior con ventilación avanzada.", "/placeholder-parts-3.jpg"),
      Entry(4, "Cadena de Transmisión", "Alta resistencia para cualquier terreno.", "/placeholder-parts-4.jpg"),
      Entry(5, "Espejos Retrovisores", "Diseño aerodinámico con visibilidad panorámica.", "/placeholder-parts-5.jpg"),
      Entry(6, "Manillar Deportivo", "Ergonomía perfecta para máximo control.", "/placeholder-parts-6.jpg")]
    case MotosCatalog => [
      Entry(1, "Sport 1000R", "Potencia y diseño deportivo en perfecta armonía.", "/placeholder-bike-1.jpg"),
      Entry(2, "Cruiser Classic 800", "Estilo atemporal con tecnología moderna.", "/placeholder-bike-2.jpg"),
      Entry(3, "Naked Street 600", "Agilidad urbana con carácter agresivo.", "/placeholder-bike-3.jpg"),
      Entry(4, "Adventure 1200 GS", "Lista para cualquier aventura.", "/placeholder-bike-4.jpg"),
      Entry(5, "Urban Scooter 300", "Movilidad urbana eficiente y elegante.", "/placeholder-bike-5.jpg"),
      Entry(6, "Custom Bobber 750", "Personalización extrema con alma rebelde.", "/placeholder-bike-6.jpg")]
  }

  /** Appending an entry with an id larger than every id keeps ids distinct. */
  lemma AppendFreshKeepsUniqueKeys(entries: seq<Entry>, e: Entry)
    requires Rows.UniqueKeys(entries, EntryId)
    requires forall i :: 0 <= i < |entries| ==> entries[i].id < e.id
    ensures Rows.UniqueKeys(entries + [e], EntryId)
  {
  }

  /** The page's state. */
  class CatalogPage {
    var entries: seq<Entry>
    var isDialogOpen: bool
    var editing: Option<Entry>
    var formData: EntryForm

    /** No two entries share an id. */
    ghost predicate Valid()
      reads this
    {
      Rows.UniqueKeys(entries, EntryId)
    }

    constructor (catalog: Catalog)
      ensures Valid() && entries == InitialEntries(catalog)
      ensures !isDialogOpen && editing == None && formData == BlankForm
    {
      entries := InitialEntries(catalog);
      isDialogOpen := false;
      editing := None;
      formData := BlankForm;
    }

    /** resetForm. */
    method ResetForm()
      modifies this
      ensures formData == BlankForm && editing == None && !isDialogOpen
      ensures entries == old(entries)
    {
      formData := BlankForm;
      editing := None;
      isDialogOpen := false;
    }

    /** The "Agregar" button. */
    method OpenCreate()
      modifies this
      ensures formData == BlankForm && editing == None && isDialogOpen
      ensures entries == old(entries)
    {
      ResetForm();
      isDialogOpen := true;
    }

    /** handleSubmit: an edit rewrites the entries with the edited id from
      the form; a create appends a new entry with a fresh id. Ids stay
      distinct. */
    method HandleSubmit()
      requires Valid()
      modifies this
      ensures Valid()
      ensures old(editing).Some? ==>
        |entries| == |old(entries)| &&
        forall i :: 0 <= i < |entries| ==>
          entries[i] == if old(entries)[i].id == old(editing).value.id
                        then WithForm(old(entries)[i], old(formData))
                        else old(entries)[i]
      ensures old(editing).None? ==>
        entries == old(entries) + [NewEntry(NextId(old(entries)), old(formData))]
      ensures formData == BlankForm && editing == None && !isDialogOpen
    {
      match editing {
        case Some(e) =>
          var f := formData;
          Rows.ReplaceKeepsUniqueKeys(entries, EntryId, e.id, p => WithForm(p, f));
          entries := Rows.ReplaceMatching(entries, EntryId, e.id, p => WithForm(p, f));
        case None =>
          var created := NewEntry(NextId(entries), formData);
          AppendFreshKeepsUniqueKeys(entries, created);
          entries := entries + [created];
      }
      ResetForm();
    }

    /** handleEdit. */
    method HandleEdit(e: Entry)
      modifies this
      ensures editing == Some(e) && formData == FormOf(e) && isDialogOpen
      ensures entries == old(entries)
    {
      editing := Some(e);
      formData := FormOf(e);
      isDialogOpen := true;
    }

    /** handleDelete: the entry goes at once, without confirmation. */
    method HandleDelete(id: int)
      requires Valid()
      modifies this
      ensures Valid()
      ensures entries == Rows.Reject(old(entries), EntryId, [id])
      ensures formData == old(formData) && editing == old(editing) && isDialogOpen == old(isDialogOpen)
    {
      Rows.RejectKeepsUniqueKeys(entries, EntryId, [id]);
      entries := Rows.Reject(entries, EntryId, [id]);
    }
  }
}
