/** The rows of the three backend tables (repuestos, motocargueros,
    banner_images) as the admin views and the server actions see them.
    Timestamps are instants (milliseconds); their ISO text is not modelled. */
module Records {
  import opened Common
  import opened Numbers

  type Id = string

  /** A spare part. `stock` and `price` hold what `parseInt` / `parseFloat`
      produced, NaN included. */
  datatype Repuesto = Repuesto(
    id: Id,
    name: string,
    description: Option<string>,
    image_url: Option<string>,
    price: Option<Parsed<real>>,
    stock: Option<Parsed<int>>,
    category: Option<string>,
    is_active: Option<bool>,
    is_featured: Option<bool>,
    created_at: int,
    updated_at: int)

  /** A JSON column value. Object members hold strings: the specs column only
      ever receives string members from the admin form. */
  datatype Json =
    | JNull
    | JBool(b: bool)
    | JNumber(n: real)
    | JString(s: string)
    | JArray(items: seq<Json>)
    | JObject(fields: map<string, string>)

  /** A cargo motorcycle; `specs` is the free-form JSON column. */
  datatype Motocarguero = Motocarguero(
    id: Id,
    name: string,
    description: Option<string>,
    image_url: Option<string>,
    price: Option<Parsed<real>>,
    specs: Json,
    is_active: Option<bool>,
    is_featured: Option<bool>,
    created_at: int,
    updated_at: int)

  /** A hero banner image. */
  datatype BannerImage = BannerImage(
    id: Id,
    image_url: string,
    image_url_mobile: Option<string>,
    title: Option<string>,
    subtitle: Option<string>,
    show_title: Option<bool>,
    show_subtitle: Option<bool>,
    is_active: Option<bool>,
    display_order: int,
    created_at: int,
    updated_at: int)

  function RepuestoId(r: Repuesto): Id { r.id }
  function MotocargueroId(m: Motocarguero): Id { m.id }
  function BannerId(b: BannerImage): Id { b.id }

  /** `.eq("is_active", true)`: a null flag does not match. */
  predicate ActiveRepuesto(r: Repuesto) { r.is_active == Some(true) }
  predicate ActiveMotocarguero(m: Motocarguero) { m.is_active == Some(true) }
  predicate ActiveBanner(b: BannerImage) { b.is_active == Some(true) }

  /** `.eq("is_active", true).eq("is_featured", true)`. */
  predicate FeaturedRepuesto(r: Repuesto) { r.is_active == Some(true) && r.is_featured == Some(true) }
  predicate FeaturedMotocarguero(m: Motocarguero) { m.is_active == Some(true) && m.is_featured == Some(true) }

  function RepuestoCreatedAt(r: Repuesto): int { r.created_at }
  function MotocargueroCreatedAt(m: Motocarguero): int { m.created_at }
  function BannerDisplayOrder(b: BannerImage): int { b.display_order }

  /** What the price column of an admin table shows: a dash, or the amount
      formatted as soles (the formatting itself is not modelled). */
  datatype PriceCell = Dash | Currency(amount: real)

  /** `formatPrice`: null, NaN and zero are falsy and show "-"; any other
      price is formatted. */
  function FormatPrice(price: Option<Parsed<real>>): (c: PriceCell)
    ensures c == Dash <==> price.None? || price.value.NaN? || price.value.value == 0.0
    ensures c.Currency? ==> price == Some(Num(c.amount))
  {
    match price
    case None => Dash
    case Some(NaN) => Dash
    case Some(Num(v)) => if v == 0.0 then Dash else Currency(v)
  }
}
