/** The admin view of hero banners: the list, a form, the banner being edited
    and the dialog flag, plus the active/inactive switch on each banner. */
module DashboardBanner {
  import opened Common
  import opened Records
  import Rows

  datatype BannerForm = BannerForm(image_url: string, title: string, subtitle: string, is_active: bool)

  const BlankForm := BannerForm("", "", "", true)

  /** The record handleSubmit sends. */
  datatype BannerInput = BannerInput(
    image_url: string,
    title: Option<string>,
    subtitle: Option<string>,
    is_active: bool,
    display_order: int)

  /** The record built from the form. A new banner goes last: its position
      is the number of banners listed; an edited banner keeps its position. */
  function Submitted(f: BannerForm, editing: Option<BannerImage>, listed: nat): (d: BannerInput)
    ensures d.image_url == f.image_url && d.is_active == f.is_active
    ensures OrElse(d.title, "") == f.title && d.title != Some("")
    ensures OrElse(d.subtitle, "") == f.subtitle && d.subtitle != Some("")
    ensures editing.None? ==> d.display_order == listed
    ensures editing.Some? ==> d.display_order == editing.value.display_order
  {
    BannerInput(
      f.image_url,
      NullIfEmpty(f.title),
      NullIfEmpty(f.subtitle),
      f.is_active,
      if editing.Some? then editing.value.display_order else listed)
  }

  /** `{ ...b, ...data, updated_at: now }`. */
  function WithInput(b: BannerImage, d: BannerInput, now: int): (w: BannerImage)
    ensures w.id == b.id && w.image_url_mobile == b.image_url_mobile && w.created_at == b.created_at
    ensures w.show_title == b.show_title && w.show_subtitle == b.show_subtitle
    ensures w.updated_at == now && w.display_order == d.display_order
    ensures w.image_url == d.image_url && w.title == d.title && w.subtitle == d.subtitle
    ensures w.is_active == Some(d.is_active)
  {
    b.(image_url := d.image_url, title := d.title, subtitle := d.subtitle,
       is_active := Some(d.is_active), display_order := d.display_order, updated_at := now)
  }

  /** handleEdit's form for a banner. */
  function LoadForm(b: BannerImage): (f: BannerForm)
    ensures f.image_url == b.image_url
    ensures f.title == OrElse(b.title, "") && f.subtitle == OrElse(b.subtitle, "")
    ensures f.is_active == (b.is_active != Some(false))
  {
    BannerForm(b.image_url, OrElse(b.title, ""), OrElse(b.subtitle, ""),
               match b.is_active case Some(b) => b case None => true)
  }

  /** Editing a banner and saving it unchanged sends the banner's own values. */
  lemma EditThenSubmit(b: BannerImage, listed: nat)
    requires b.title != Some("") && b.subtitle != Some("")
    ensures var d := Submitted(LoadForm(b), Some(b), listed);
      && d.image_url == b.image_url && d.title == b.title && d.subtitle == b.subtitle
      && d.display_order == b.display_order && d.is_active == (b.is_active != Some(false))
  {
  }

  /** Saving a form and opening the saved banner again shows the same form. */
  lemma SubmitThenEdit(f: BannerForm, editing: Option<BannerImage>, listed: nat, b: BannerImage, now: int)
    ensures LoadForm(WithInput(b, Submitted(f, editing, listed), now)) == f
  {
  }

  /** `!banner.is_active`: a null flag switches the banner on. */
  function SwitchedActive(b: BannerImage): (active: bool)
    ensures active <==> !ActiveBanner(b)
  {
    !(b.is_active == Some(true))
  }

  /** `{ ...b, is_active: active }`: only the active flag changes. */
  function WithActive(b: BannerImage, active: bool): (w: BannerImage)
    ensures ActiveBanner(w) <==> active
    ensures w.id == b.id && w.image_url == b.image_url && w.image_url_mobile == b.image_url_mobile
    ensures w.title == b.title && w.subtitle == b.subtitle
    ensures w.show_title == b.show_title && w.show_subtitle == b.show_subtitle
    ensures w.display_order == b.display_order && w.created_at == b.created_at && w.updated_at == b.updated_at
  {
    b.(is_active := Some(active))
  }

  /** `banners.filter(b => b.is_active).length`. */
  function ActiveCount(banners: seq<BannerImage>): (n: nat)
    ensures n <= |banners|
    ensures n == 0 <==> forall i :: 0 <= i < |banners| ==> !ActiveBanner(banners[i])
  {
    var active := Rows.Filter(banners, ActiveBanner);
    assert (exists i :: 0 <= i < |banners| && ActiveBanner(banners[i])) ==> |active| > 0 by {
      if i :| 0 <= i < |banners| && ActiveBanner(banners[i]) {
        assert banners[i] in active;
      }
    }
    assert |active| > 0 ==> exists i :: 0 <= i < |banners| && ActiveBanner(banners[i]) by {
      if |active| > 0 {
        assert active[0] in active;
        var i :| 0 <= i < |banners| && banners[i] == active[0];
      }
    }
    |active|
  }

  /** Two different positions of the list hold active banners. */
  ghost predicate TwoActiveAt(banners: seq<BannerImage>)
  {
    exists i, j :: 0 <= i < j < |banners| && ActiveBanner(banners[i]) && ActiveBanner(banners[j])
  }

  /** Some position of the list holds an active banner. */
  ghost predicate SomeActiveAt(banners: seq<BannerImage>)
  {
    exists j :: 0 <= j < |banners| && ActiveBanner(banners[j])
  }

  lemma SomeActiveIffFiltered(banners: seq<BannerImage>)
    ensures SomeActiveAt(banners) <==> |Rows.Filter(banners, ActiveBanner)| > 0
  {
    var f := Rows.Filter(banners, ActiveBanner);
    if SomeActiveAt(banners) {
      var j :| 0 <= j < |banners| && ActiveBanner(banners[j]);
      assert banners[j] in f;
    }
    if |f| > 0 {
      assert f[0] in f;
    }
  }

  lemma TwoActiveActiveHead(banners: seq<BannerImage>)
    requires banners != [] && ActiveBanner(banners[0])
    ensures TwoActiveAt(banners) <==> SomeActiveAt(banners[1..])
  {
    var rest := banners[1..];
    if SomeActiveAt(rest) {
      var j :| 0 <= j < |rest| && ActiveBanner(rest[j]);
      assert banners[j + 1] == rest[j];
    }
    if TwoActiveAt(banners) {
      var i, j :| 0 <= i < j < |banners| && ActiveBanner(banners[i]) && ActiveBanner(banners[j]);
      assert rest[j - 1] == banners[j];
    }
  }

  lemma TwoActiveInactiveHead(banners: seq<BannerImage>)
    requires banners != [] && !ActiveBanner(banners[0])
    ensures TwoActiveAt(banners) <==> TwoActiveAt(banners[1..])
  {
    var rest := banners[1..];
    if TwoActiveAt(rest) {
      var i, j :| 0 <= i < j < |rest| && ActiveBanner(rest[i]) && ActiveBanner(rest[j]);
      assert banners[i + 1] == rest[i] && banners[j + 1] == rest[j];
    }
    if TwoActiveAt(banners) {
      var i, j :| 0 <= i < j < |banners| && ActiveBanner(banners[i]) && ActiveBanner(banners[j]);
      assert rest[i - 1] == banners[i] && rest[j - 1] == banners[j];
    }
  }

  /** More than one banner passes the active filter exactly when two
      different positions of the list hold active banners. */
  lemma {:induction false} TwoActive(banners: seq<BannerImage>)
    ensures |Rows.Filter(banners, ActiveBanner)| > 1 <==> TwoActiveAt(banners)
  {
    if banners != [] {
      var rest := banners[1..];
      var tail := Rows.Filter(rest, ActiveBanner);
      assert Rows.Filter(banners, ActiveBanner)
          == (if ActiveBanner(banners[0]) then [banners[0]] else []) + tail;
      if ActiveBanner(banners[0]) {
        SomeActiveIffFiltered(rest);
        TwoActiveActiveHead(banners);
      } else {
        TwoActive(rest);
        TwoActiveInactiveHead(banners);
      }
    }
  }

  /** The carousel note shows exactly when at least two banners are
      active, so that the carousel has something to rotate. */
  function ShowsCarouselNote(banners: seq<BannerImage>): (shown: bool)
    ensures shown <==>
      exists i, j :: 0 <= i < j < |banners| && ActiveBanner(banners[i]) && ActiveBanner(banners[j])
  {
    TwoActive(banners);
    ActiveCount(banners) > 1
  }

  /** Switching one banner of a list with distinct ids changes the active
      count by exactly that banner's change. */
  lemma {:induction false} SwitchShiftsActiveCount(banners: seq<BannerImage>, k: nat, active: bool)
    requires k < |banners| && Rows.UniqueKeys(banners, BannerId)
    ensures ActiveCount(Rows.ReplaceMatching(banners, BannerId, banners[k].id, b => WithActive(b, active)))
         == ActiveCount(banners) - (if ActiveBanner(banners[k]) then 1 else 0) + (if active then 1 else 0)
  {
    var id := banners[k].id;
    var patch := b => WithActive(b, active);
    var after := Rows.ReplaceMatching(banners, BannerId, id, patch);
    var rest := banners[1..];
    assert after == [after[0]] + after[1..];
    assert after[1..] == Rows.ReplaceMatching(rest, BannerId, id, patch);
    assert Rows.UniqueKeys(rest, BannerId);
    if k == 0 {
      Rows.ReplaceAbsent(rest, BannerId, id, patch);
      assert after[0] == WithActive(banners[0], active);
    } else {
      assert rest[k - 1] == banners[k];
      SwitchShiftsActiveCount(rest, k - 1, active);
      assert after[0] == banners[0];
    }
  }

  class BannerTable {
    var banners: seq<BannerImage>
    var isDialogOpen: bool
    var editingBanner: Option<BannerImage>
    var formData: BannerForm

    constructor (initialData: seq<BannerImage>)
      ensures banners == initialData && !isDialogOpen
      ensures editingBanner == None && formData == BlankForm
    {
      banners := initialData;
      isDialogOpen := false;
      editingBanner := None;
      formData := BlankForm;
    }

    /** resetForm. */
    method ResetForm()
      modifies this
      ensures formData == BlankForm && editingBanner == None && !isDialogOpen
      ensures banners == old(banners)
    {
      formData := BlankForm;
      editingBanner := None;
      isDialogOpen := false;
    }

    /** The "Agregar Banner" button. */
    method OpenCreate()
      modifies this
      ensures formData == BlankForm && editingBanner == None && isDialogOpen
      ensures banners == old(banners)
    {
      ResetForm();
      isDialogOpen := true;
    }

    /** handleSubmit. Without an image nothing is sent and nothing changes
      but an error toast; otherwise `sent` is what went to the update (when
      editing) or create call, which answered `result`. */
    method HandleSubmit(result: ActionResult, now: int) returns (sent: Option<BannerInput>, toast: Toast, reload: bool)
      modifies this
      ensures old(formData).image_url == "" ==>
        sent == None && toast == ErrorToast("Debes subir una imagen") && !reload &&
        banners == old(banners) && formData == old(formData) &&
        editingBanner == old(editingBanner) && isDialogOpen == old(isDialogOpen)
      ensures old(formData).image_url != "" ==>
        sent == Some(Submitted(old(formData), old(editingBanner), |old(banners)|)) &&
        formData == BlankForm && editingBanner == None && !isDialogOpen &&
        (reload <==> old(editingBanner).None? && result.success)
      ensures old(formData).image_url != "" && old(editingBanner).Some? && result.success ==>
        |banners| == |old(banners)| &&
        forall i :: 0 <= i < |banners| ==>
          banners[i] == if old(banners)[i].id == old(editingBanner).value.id
                        then WithInput(old(banners)[i], sent.value, now)
                        else old(banners)[i]
      ensures old(editingBanner).None? || !result.success ==> banners == old(banners)
      ensures old(formData).image_url != "" ==>
        toast == if old(editingBanner).Some? then
                   (if result.success then SuccessToast("Banner actualizado correctamente")
                    else FailureToast(result, "Error al actualizar"))
                 else
                   (if result.success then SuccessToast("Banner creado correctamente")
                    else FailureToast(result, "Error al crear"))
    {
      reload := false;
      if formData.image_url == "" {
        return None, ErrorToast("Debes subir una imagen"), false;
      }
      var data := Submitted(formData, editingBanner, |banners|);
      sent := Some(data);
      match editingBanner {
        case Some(editing) =>
          if result.success {
            banners := Rows.ReplaceMatching(banners, BannerId, editing.id, b => WithInput(b, data, now));
            toast := SuccessToast("Banner actualizado correctamente");
          } else {
            toast := FailureToast(result, "Error al actualizar");
          }
        case None =>
          if result.success {
            toast := SuccessToast("Banner creado correctamente");
            reload := true;
          } else {
            toast := FailureToast(result, "Error al crear");
          }
      }
      ResetForm();
    }

    /** handleEdit. */
    method HandleEdit(banner: BannerImage)
      modifies this
      ensures editingBanner == Some(banner) && isDialogOpen && formData == LoadForm(banner)
      ensures banners == old(banners)
    {
      editingBanner := Some(banner);
      formData := LoadForm(banner);
      isDialogOpen := true;
    }

    /** handleDelete. */
    method HandleDelete(id: Id, confirmed: bool, result: ActionResult) returns (toast: Option<Toast>)
      modifies this
      ensures !confirmed ==> toast == None && banners == old(banners)
      ensures confirmed && result.success ==>
        banners == Rows.Reject(old(banners), BannerId, [id]) &&
        toast == Some(SuccessToast("Banner eliminado correctamente"))
      ensures confirmed && !result.success ==>
        banners == old(banners) && toast == Some(FailureToast(result, "Error al eliminar"))
      ensures formData == old(formData) && editingBanner == old(editingBanner)
      ensures isDialogOpen == old(isDialogOpen)
    {
      if !confirmed {
        return None;
      }
      if result.success {
        banners := Rows.Reject(banners, BannerId, [id]);
        toast := Some(SuccessToast("Banner eliminado correctamente"));
      } else {
        toast := Some(FailureToast(result, "Error al eliminar"));
      }
    }

    /** toggleActive: after a successful update only the banners with that id
      carry the switched flag; a failure changes nothing and shows a fixed
      message (the action's error text is not shown). */
    method ToggleActive(banner: BannerImage, result: ActionResult) returns (toast: Toast)
      modifies this
      ensures result.success ==>
        |banners| == |old(banners)| &&
        (forall i :: 0 <= i < |banners| ==>
          banners[i] == if old(banners)[i].id == banner.id
                        then WithActive(old(banners)[i], SwitchedActive(banner))
                        else old(banners)[i]) &&
        toast == SuccessToast(if SwitchedActive(banner) then "Banner activado" else "Banner desactivado")
      ensures !result.success ==> banners == old(banners) && toast == ErrorToast("Error al actualizar")
      ensures formData == old(formData) && editingBanner == old(editingBanner)
      ensures isDialogOpen == old(isDialogOpen)
    {
      var newActive := SwitchedActive(banner);
      if result.success {
        banners := Rows.ReplaceMatching(banners, BannerId, banner.id, b => WithActive(b, newActive));
        toast := SuccessToast(if newActive then "Banner activado" else "Banner desactivado");
      } else {
        toast := ErrorToast("Error al actualizar");
      }
    }
  }
}
