/** The server actions over the banner_images table. The table is the list
    of its rows in storage order; every action takes the backend's answer to
    its query or write as an input and returns the table afterwards. */
module BannerActions {
  import opened Common
  import opened Records
  import Rows
  import Ordering

  /** getBannerImages: every banner, by ascending display order; nothing
      when the query fails. */
  function GetBannerImages(table: seq<BannerImage>, reply: DbReply): (r: seq<BannerImage>)
    ensures reply.DbError? ==> r == []
    ensures reply.DbOk? ==> Ordering.SortedBy(r, BannerDisplayOrder) && multiset(r) == multiset(table)
  {
    if reply.DbOk? then Ordering.SortBy(table, BannerDisplayOrder) else []
  }

  /** getActiveBannerImages: the active banners (a null flag is not
      active), by ascending display order; nothing when the query fails. */
  function GetActiveBannerImages(table: seq<BannerImage>, reply: DbReply): (r: seq<BannerImage>)
    ensures reply.DbError? ==> r == []
    ensures reply.DbOk? ==> Ordering.SortedBy(r, BannerDisplayOrder)
    ensures reply.DbOk? ==> multiset(r) == multiset(Rows.Filter(table, ActiveBanner))
    ensures forall b :: b in r <==> reply.DbOk? && b in table && ActiveBanner(b)
  {
    if reply.DbOk? then
      var r := Ordering.SortBy(Rows.Filter(table, ActiveBanner), BannerDisplayOrder);
      assert forall b :: b in r <==> b in multiset(r);
      r
    else []
  }

  /** createBannerImage: the row is appended when the insert succeeds. */
  function CreateBannerImage(table: seq<BannerImage>, row: BannerImage, reply: DbReply): (out: (seq<BannerImage>, ActionResult))
    ensures reply.DbOk? ==> out.0 == table + [row]
    ensures reply.DbError? ==> out.0 == table
    ensures out.1.success <==> reply.DbOk?
    ensures reply.DbError? ==> out.1.error == Some(reply.message)
  {
    (if reply.DbOk? then table + [row] else table, ResultOf(reply))
  }

  /** The fields an update sets; an absent field is left as it is. */
  datatype BannerChanges = BannerChanges(
    image_url: Option<string>,
    title: Option<Option<string>>,
    subtitle: Option<Option<string>>,
    is_active: Option<bool>,
    display_order: Option<int>)

  function Pick<T>(change: Option<T>, current: T): T
  {
    match change
    case Some(v) => v
    case None => current
  }

  /** A row with the changes applied: the id and the columns not named
      keep their values. */
  function Changed(b: BannerImage, c: BannerChanges): (r: BannerImage)
    ensures r.id == b.id && r.created_at == b.created_at && r.updated_at == b.updated_at
    ensures r.image_url_mobile == b.image_url_mobile
    ensures r.show_title == b.show_title && r.show_subtitle == b.show_subtitle
    ensures r.image_url == if c.image_url.Some? then c.image_url.value else b.image_url
    ensures r.title == if c.title.Some? then c.title.value else b.title
    ensures r.subtitle == if c.subtitle.Some? then c.subtitle.value else b.subtitle
    ensures r.is_active == if c.is_active.Some? then c.is_active else b.is_active
    ensures r.display_order == if c.display_order.Some? then c.display_order.value else b.display_order
    ensures c == BannerChanges(None, None, None, None, None) ==> r == b
  {
    b.(image_url := Pick(c.image_url, b.image_url),
       title := Pick(c.title, b.title),
       subtitle := Pick(c.subtitle, b.subtitle),
       is_active := if c.is_active.Some? then c.is_active else b.is_active,
       display_order := Pick(c.display_order, b.display_order))
  }

  /** updateBannerImage: the rows with that id get the changes when the
      update succeeds. */
  function UpdateBannerImage(table: seq<BannerImage>, id: Id, c: BannerChanges, reply: DbReply): (out: (seq<BannerImage>, ActionResult))
    ensures |out.0| == |table|
    ensures forall i :: 0 <= i < |table| ==>
      out.0[i] == if reply.DbOk? && table[i].id == id then Changed(table[i], c) else table[i]
    ensures out.1.success <==> reply.DbOk?
    ensures reply.DbError? ==> out.1.error == Some(reply.message)
  {
    (if reply.DbOk? then Rows.ReplaceMatching(table, BannerId, id, b => Changed(b, c)) else table, ResultOf(reply))
  }

  /** deleteBannerImage: the rows with that id are gone when the delete
      succeeds. */
  function DeleteBannerImage(table: seq<BannerImage>, id: Id, reply: DbReply): (out: (seq<BannerImage>, ActionResult))
    ensures reply.DbOk? ==> forall b :: b in out.0 <==> b in table && b.id != id
    ensures reply.DbError? ==> out.0 == table
    ensures out.1.success <==> reply.DbOk?
    ensures reply.DbError? ==> out.1.error == Some(reply.message)
  {
    (if reply.DbOk? then Rows.Reject(table, BannerId, [id]) else table, ResultOf(reply))
  }

  /** Updates and deletes keep the banner ids distinct. */
  lemma WritesKeepUniqueIds(table: seq<BannerImage>, id: Id, c: BannerChanges, reply: DbReply)
    requires Rows.UniqueKeys(table, BannerId)
    ensures Rows.UniqueKeys(UpdateBannerImage(table, id, c, reply).0, BannerId)
    ensures Rows.UniqueKeys(DeleteBannerImage(table, id, reply).0, BannerId)
  {
    if reply.DbOk? {
      Rows.RejectKeepsUniqueKeys(table, BannerId, [id]);
    }
  }

  /** One step of reorderBannerImages: the rows with `id` move to position `i`. */
  function SetOrder(table: seq<BannerImage>, id: Id, i: int): (r: seq<BannerImage>)
    ensures |r| == |table|
    ensures forall p :: 0 <= p < |table| ==>
      r[p] == if table[p].id == id then table[p].(display_order := i) else table[p]
  {
    Rows.ReplaceMatching(table, BannerId, id, (b: BannerImage) => b.(display_order := i))
  }

  /** The table after the first `n` updates of reorderBannerImages. Rows keep
      their place and their ids. */
  function Reordered(table: seq<BannerImage>, ids: seq<Id>, n: nat): (r: seq<BannerImage>)
    requires n <= |ids|
    ensures |r| == |table|
    ensures forall p :: 0 <= p < |table| ==> r[p].id == table[p].id
  {
    if n == 0 then table else SetOrder(Reordered(table, ids, n - 1), ids[n - 1], n - 1)
  }

  /** reorderBannerImages: gives the i-th listed banner position i, one
      update at a time, and stops at the first update that fails, whose
      message it returns; the updates made before it stay. */
  method ReorderBannerImages(table: seq<BannerImage>, orderedIds: seq<Id>, reply: nat -> DbReply)
    returns (after: seq<BannerImage>, result: ActionResult)
    ensures result.success <==> forall j :: 0 <= j < |orderedIds| ==> reply(j).DbOk?
    ensures result.success ==> after == Reordered(table, orderedIds, |orderedIds|) && result.error == None
    ensures !result.success ==>
      exists k :: 0 <= k < |orderedIds| && reply(k).DbError? &&
        (forall j :: 0 <= j < k ==> reply(j).DbOk?) &&
        after == Reordered(table, orderedIds, k) && result.error == Some(reply(k).message)
  {
    after := table;
    var i := 0;
    while i < |orderedIds|
      invariant 0 <= i <= |orderedIds|
      invariant after == Reordered(table, orderedIds, i)
      invariant forall j :: 0 <= j < i ==> reply(j).DbOk?
    {
      var r := reply(i);
      if r.DbError? {
        return after, ActionResult(false, Some(r.message));
      }
      after := SetOrder(after, orderedIds[i], i);
      i := i + 1;
    }
    result := ActionResult(true, None);
  }

  /** No id is listed twice. */
  ghost predicate DistinctIds(ids: seq<Id>)
  {
    forall i, j :: 0 <= i < j < |ids| ==> ids[i] != ids[j]
  }

  /** A banner whose id is not among the first `n` ids is untouched by the
      first `n` updates, whatever the list. */
  lemma {:induction false} ReorderedUnlisted(table: seq<BannerImage>, ids: seq<Id>, n: nat, p: nat)
    requires n <= |ids| && p < |table|
    requires forall i :: 0 <= i < n ==> ids[i] != table[p].id
    ensures Reordered(table, ids, n)[p] == table[p]
  {
    if n > 0 {
      ReorderedUnlisted(table, ids, n - 1, p);
    }
  }

  /** After the first `n` updates with distinct ids, a banner listed at
      position `i < n` has display order `i`. */
  lemma {:induction false} ReorderedAt(table: seq<BannerImage>, ids: seq<Id>, n: nat, p: nat)
    requires n <= |ids| && p < |table| && DistinctIds(ids)
    ensures forall i :: 0 <= i < n && ids[i] == table[p].id ==>
      Reordered(table, ids, n)[p] == table[p].(display_order := i)
  {
    if n > 0 {
      var before := Reordered(table, ids, n - 1);
      assert Reordered(table, ids, n) == SetOrder(before, ids[n - 1], n - 1);
      if ids[n - 1] == table[p].id {
        assert forall i :: 0 <= i < n - 1 ==> ids[i] != table[p].id;
        ReorderedUnlisted(table, ids, n - 1, p);
      } else {
        ReorderedAt(table, ids, n - 1, p);
      }
    }
  }
}
