/** The read-only server actions behind the public landing and catalogue
    pages: featured and active products, newest first, and the number of
    active products of each kind. */
module PublicActions {
  import opened Common
  import opened Records
  import Rows
  import Ordering

  /** Newest first by the given creation instant. */
  ghost predicate NewestFirst<T>(s: seq<T>, createdAt: T -> int)
  {
    forall i, j :: 0 <= i < j < |s| ==> createdAt(s[i]) >= createdAt(s[j])
  }

  /** A filtered query ordered by creation time, newest first, optionally
      limited; nothing when the query fails. */
  function Listing<T(==)>(table: seq<T>, admit: T -> bool, createdAt: T -> int, limit: Option<nat>, reply: DbReply): (r: seq<T>)
    ensures reply.DbError? ==> r == []
    ensures forall x :: x in r ==> x in table && admit(x)
    ensures NewestFirst(r, createdAt)
    ensures limit.Some? ==> |r| <= limit.value
    ensures reply.DbOk? && limit.Some? ==>
      |r| == if |Rows.Filter(table, admit)| < limit.value then |Rows.Filter(table, admit)| else limit.value
    ensures reply.DbOk? && limit.None? ==> multiset(r) == multiset(Rows.Filter(table, admit))
  {
    if reply.DbError? then []
    else
      var admitted := Rows.Filter(table, admit);
      var sorted := Ordering.SortBy(admitted, x => -createdAt(x));
      assert |sorted| == |admitted|;
      assert forall x :: x in sorted ==> x in multiset(admitted);
      match limit
      case None => sorted
      case Some(n) =>
        var r := Ordering.Take(sorted, n);
        assert forall i :: 0 <= i < |r| ==> r[i] == sorted[i];
        assert forall x :: x in r ==> x in sorted;
        r
  }

  /** A limited listing holds the newest admitted rows: every admitted row
      it leaves out is no newer than any row it holds, and when fewer rows
      are admitted than the limit, it holds all of them. */
  lemma ListingIsNewest<T>(table: seq<T>, admit: T -> bool, createdAt: T -> int, n: nat)
    ensures var r := Listing(table, admit, createdAt, Some(n), DbOk);
      && (forall x, y :: x in table && admit(x) && x !in r && y in r ==> createdAt(x) <= createdAt(y))
      && (|Rows.Filter(table, admit)| <= n ==> multiset(r) == multiset(Rows.Filter(table, admit)))
      && (|Rows.Filter(table, admit)| > n ==> |r| == n)
  {
    var r := Listing(table, admit, createdAt, Some(n), DbOk);
    var sorted := Ordering.SortBy(Rows.Filter(table, admit), x => -createdAt(x));
    assert r == Ordering.Take(sorted, n);
    forall x, y | x in table && admit(x) && x !in r && y in r
      ensures createdAt(x) <= createdAt(y)
    {
      assert x in multiset(sorted);
      var k :| 0 <= k < |sorted| && sorted[k] == x;
      var m :| 0 <= m < |r| && r[m] == y;
      assert r[m] == sorted[m];
      if k < |r| {
        assert false;
      }
    }
  }

  /** getFeaturedRepuestos: at most six active and featured spare parts,
      newest first. */
  function GetFeaturedRepuestos(table: seq<Repuesto>, reply: DbReply): (r: seq<Repuesto>)
    ensures reply.DbError? ==> r == []
    ensures |r| <= 6
    ensures forall x :: x in r ==> x in table && x.is_active == Some(true) && x.is_featured == Some(true)
    ensures NewestFirst(r, RepuestoCreatedAt)
  {
    Listing(table, FeaturedRepuesto, RepuestoCreatedAt, Some(6), reply)
  }

  /** getFeaturedMotocargueros: at most six active and featured cargo
      motorcycles, newest first. */
  function GetFeaturedMotocargueros(table: seq<Motocarguero>, reply: DbReply): (r: seq<Motocarguero>)
    ensures reply.DbError? ==> r == []
    ensures |r| <= 6
    ensures forall x :: x in r ==> x in table && x.is_active == Some(true) && x.is_featured == Some(true)
    ensures NewestFirst(r, MotocargueroCreatedAt)
  {
    Listing(table, FeaturedMotocarguero, MotocargueroCreatedAt, Some(6), reply)
  }

  /** getActiveRepuestos: every active spare part, newest first. */
  function GetActiveRepuestos(table: seq<Repuesto>, reply: DbReply): (r: seq<Repuesto>)
    ensures reply.DbError? ==> r == []
    ensures reply.DbOk? ==> forall x :: x in r <==> x in table && x.is_active == Some(true)
    ensures NewestFirst(r, RepuestoCreatedAt)
  {
    var r := Listing(table, ActiveRepuesto, RepuestoCreatedAt, None, reply);
    assert forall x :: x in r <==> x in multiset(r);
    r
  }

  /** getActiveMotocargueros: every active cargo motorcycle, newest first. */
  function GetActiveMotocargueros(table: seq<Motocarguero>, reply: DbReply): (r: seq<Motocarguero>)
    ensures reply.DbError? ==> r == []
    ensures reply.DbOk? ==> forall x :: x in r <==> x in table && x.is_active == Some(true)
    ensures NewestFirst(r, MotocargueroCreatedAt)
  {
    var r := Listing(table, ActiveMotocarguero, MotocargueroCreatedAt, None, reply);
    assert forall x :: x in r <==> x in multiset(r);
    r
  }

  datatype ProductCounts = ProductCounts(repuestos: nat, motocargueros: nat)

  /** `count || 0`: a failed count query reads as zero. */
  function CountOrZero(reply: DbReply, count: nat): (n: nat)
    ensures reply.DbOk? ==> n == count
    ensures reply.DbError? ==> n == 0
  {
    if reply.DbOk? then count else 0
  }

  /** getProductCounts: the exact number of active rows of each table. */
  function GetProductCounts(repuestos: seq<Repuesto>, motocargueros: seq<Motocarguero>,
                            repuestosReply: DbReply, motocarguerosReply: DbReply): (c: ProductCounts)
    ensures repuestosReply.DbOk? ==> c.repuestos == |Rows.Filter(repuestos, ActiveRepuesto)|
    ensures motocarguerosReply.DbOk? ==> c.motocargueros == |Rows.Filter(motocargueros, ActiveMotocarguero)|
    ensures repuestosReply.DbError? ==> c.repuestos == 0
    ensures motocarguerosReply.DbError? ==> c.motocargueros == 0
  {
    ProductCounts(
      CountOrZero(repuestosReply, |Rows.Filter(repuestos, ActiveRepuesto)|),
      CountOrZero(motocarguerosReply, |Rows.Filter(motocargueros, ActiveMotocarguero)|))
  }

  /** The counts agree with the catalogue listings: as many as the active
      listings show. */
  lemma CountsMatchListings(repuestos: seq<Repuesto>, motocargueros: seq<Motocarguero>)
    ensures GetProductCounts(repuestos, motocargueros, DbOk, DbOk)
         == ProductCounts(|GetActiveRepuestos(repuestos, DbOk)|, |GetActiveMotocargueros(motocargueros, DbOk)|)
  {
    var r := GetActiveRepuestos(repuestos, DbOk);
    var m := GetActiveMotocargueros(motocargueros, DbOk);
    assert |r| == |multiset(r)| == |multiset(Rows.Filter(repuestos, ActiveRepuesto))|;
    assert |m| == |multiset(m)| == |multiset(Rows.Filter(motocargueros, ActiveMotocarguero))|;
  }
}
