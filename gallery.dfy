/** The dashboard's image gallery: a list of images kept in browser memory
    and the ids the admin has selected for a bulk delete. */
module Gallery {
  import Rows

  datatype GalleryImage = GalleryImage(id: int, src: string, name: string)

  function ImageId(g: GalleryImage): int { g.id }

  function SelectionKey(id: int): int { id }

  /** The list the page starts with. */
  const InitialImages: seq<GalleryImage> := [
    GalleryImage(1, "/placeholder-parts-1.jpg", "parts-1.jpg"),
    GalleryImage(2, "/placeholder-parts-2.jpg", "parts-2.jpg"),
    GalleryImage(3, "/placeholder-parts-3.jpg", "parts-3.jpg"),
    GalleryImage(4, "/placeholder-parts-4.jpg", "parts-4.jpg"),
    GalleryImage(5, "/placeholder-parts-5.jpg", "parts-5.jpg"),
    GalleryImage(6, "/placeholder-parts-6.jpg", "parts-6.jpg"),
    GalleryImage(7, "/placeholder-bike-1.jpg", "bike-1.jpg"),
    GalleryImage(8, "/placeholder-bike-2.jpg", "bike-2.jpg"),
    GalleryImage(9, "/placeholder-bike-3.jpg", "bike-3.jpg"),
    GalleryImage(10, "/placeholder-bike-4.jpg", "bike-4.jpg"),
    GalleryImage(11, "/placeholder-bike-5.jpg", "bike-5.jpg"),
    GalleryImage(12, "/placeholder-bike-6.jpg", "bike-6.jpg"),
    GalleryImage(13, "/hero-workshop.jpg", "hero-workshop.jpg")]

  /** The page starts with thirteen images numbered 1 to 13. */
  lemma InitialImagesNumbered()
    ensures |InitialImages| == 13
    ensures forall i :: 0 <= i < |InitialImages| ==> InitialImages[i].id == i + 1
  {
  }

  const UploadNotice := "Funcionalidad de subida en desarrollo. Integrar con API de almacenamiento."

  /** No id is selected twice. */
  ghost predicate Distinct(selected: seq<int>)
  {
    Rows.UniqueKeys(selected, SelectionKey)
  }

  /** toggleSelect's new selection: a selected id is removed, any other id
      is added at the end. */
  function Toggled(selected: seq<int>, id: int): (r: seq<int>)
    ensures forall x :: x in r <==> (x in selected) != (x == id)
    ensures id !in selected ==> r == selected + [id]
  {
    if id in selected then Rows.Filter(selected, x => x != id) else selected + [id]
  }

  /** Toggling keeps the selection free of repeats. */
  lemma ToggledKeepsDistinct(selected: seq<int>, id: int)
    requires Distinct(selected)
    ensures Distinct(Toggled(selected, id))
  {
    if id in selected {
      Rows.FilterKeepsUniqueKeys(selected, SelectionKey, x => x != id);
    }
  }

  /** Toggling the same id twice always gives back the same set of ids. */
  lemma ToggleTwiceSameIds(selected: seq<int>, id: int)
    ensures forall x :: x in Toggled(Toggled(selected, id), id) <==> x in selected
  {
  }

  /** Selecting an id and unselecting it restores the selection exactly. */
  lemma ToggleTwiceRestores(selected: seq<int>, id: int)
    requires id !in selected
    ensures Toggled(Toggled(selected, id), id) == selected
  {
    var keep := x => x != id;
    Rows.FilterConcat(selected, [id], keep);
    Rows.FilterKeepsAll(selected, keep);
    assert Rows.Filter([id], keep) == [];
  }

  /** Unselecting a selected id and selecting it again moves it to the end:
      the order of the selection is not restored. */
  lemma ToggleTwiceReorders()
    ensures Toggled(Toggled([1, 2], 1), 1) == [2, 1]
  {
    var keep := x => x != 1;
    assert [1, 2][1..] == [2];
    assert Rows.Filter([2], keep) == [2];
    assert Rows.Filter([1, 2], keep) == [2];
  }

  /** The bulk-delete button, which shows the selection's size, is present
      exactly when something is selected. */
  function ShowsBulkDelete(selected: seq<int>): (shown: bool)
    ensures shown <==> exists id :: id in selected
  {
    NonEmptyHasMember(selected);
    |selected| > 0
  }

  lemma NonEmptyHasMember(selected: seq<int>)
    ensures |selected| > 0 <==> exists id :: id in selected
  {
    if |selected| > 0 {
      assert selected[0] in selected;
    }
    if exists id :: id in selected {
      var id :| id in selected;
      assert |selected| > 0;
    }
  }

  /** After a toggle of a selection without repeats, the bulk-delete button
      is present unless the toggle unselected the only selected id. */
  lemma ToggleShowsBulkDelete(selected: seq<int>, id: int)
    requires Distinct(selected)
    ensures ShowsBulkDelete(Toggled(selected, id)) <==> selected != [id]
  {
    var r := Toggled(selected, id);
    if selected != [id] && id in selected {
      assert |selected| >= 2;
      assert selected[0] != selected[1];
      if selected[0] != id {
        assert selected[0] in r;
      } else {
        assert selected[1] in r;
      }
    }
  }

  /** The page's state. */
  class GalleryPage {
    var images: seq<GalleryImage>
    var selectedImages: seq<int>

    /** Image ids are distinct and no id is selected twice. */
    ghost predicate Valid()
      reads this
    {
      Rows.UniqueKeys(images, ImageId) && Distinct(selectedImages)
    }

    constructor ()
      ensures Valid() && images == InitialImages && selectedImages == []
    {
      images := InitialImages;
      selectedImages := [];
    }

    /** toggleSelect. */
    method ToggleSelect(id: int)
      requires Valid()
      modifies this
      ensures Valid()
      ensures selectedImages == Toggled(old(selectedImages), id)
      ensures images == old(images)
    {
      ToggledKeepsDistinct(selectedImages, id);
      selectedImages := Toggled(selectedImages, id);
    }

    /** deleteSelected: exactly the selected images go, the rest keep their
      order, and the selection is cleared. */
    method DeleteSelected()
      requires Valid()
      modifies this
      ensures Valid()
      ensures images == Rows.Reject(old(images), ImageId, old(selectedImages))
      ensures forall g :: g in old(images) ==> (g in images <==> g.id !in old(selectedImages))
      ensures selectedImages == []
    {
      Rows.RejectKeepsUniqueKeys(images, ImageId, selectedImages);
      images := Rows.Reject(images, ImageId, selectedImages);
      selectedImages := [];
    }

    /** handleUpload: only an alert; nothing changes. */
    method HandleUpload() returns (alert: string)
      ensures alert == UploadNotice
    {
      alert := UploadNotice;
    }
  }
}
