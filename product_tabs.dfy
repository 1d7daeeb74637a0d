/** The landing page's product section: two tabs, spare parts (shown first)
    and cargo motorcycles, one card per product of the active tab, and a
    "Ver más" button on the spare parts tab only. */
module Tabs {

  datatype Tab = RepuestosTab | MotocarguerosTab

  datatype Product = Product(key: string, image: string, name: string, description: string)

  /** What a product card shows. */
  datatype Card = Card(image: string, name: string, description: string)

  /** The grid: one card per product, in the products' order. */
  function Cards(products: seq<Product>): (cards: seq<Card>)
    ensures |cards| == |products|
    ensures forall i :: 0 <= i < |products| ==>
      cards[i].name == products[i].name && cards[i].image == products[i].image &&
      cards[i].description == products[i].description
  {
    if products == [] then []
    else [Card(products[0].image, products[0].name, products[0].description)] + Cards(products[1..])
  }

  /** Cards of two lists shown one after the other are the cards of each. */
  lemma {:induction false} CardsConcat(a: seq<Product>, b: seq<Product>)
    ensures Cards(a + b) == Cards(a) + Cards(b)
  {
    if a != [] {
      assert (a + b)[1..] == a[1..] + b;
      CardsConcat(a[1..], b);
    } else {
      assert a + b == b;
    }
  }

  class ProductTabs {
    const repuestos: seq<Product>
    const motocargueros: seq<Product>
    var activeTab: Tab

    constructor (repuestos: seq<Product>, motocargueros: seq<Product>)
      ensures this.repuestos == repuestos && this.motocargueros == motocargueros
      ensures activeTab == RepuestosTab
    {
      this.repuestos := repuestos;
      this.motocargueros := motocargueros;
      activeTab := RepuestosTab;
    }

    /** The products of the active tab. */
    function Products(): (p: seq<Product>)
      reads this
      ensures activeTab == RepuestosTab ==> p == repuestos
      ensures activeTab == MotocarguerosTab ==> p == motocargueros
    {
      if activeTab == RepuestosTab then repuestos else motocargueros
    }

    /** The "Ver más" button is shown on the spare parts tab only: it
      appears under the spare parts and never under the motorcycles. */
    function ShowsMore(): (shown: bool)
      reads this
      ensures shown ==> Products() == repuestos
      ensures !shown ==> Products() == motocargueros
    {
      activeTab == RepuestosTab
    }

    /** A click on a tab button makes it the active tab, whose products are
      listed, with "Ver más" exactly on the spare parts tab; clicking the
      active tab again changes nothing. */
    method Click(tab: Tab)
      modifies this
      ensures activeTab == tab
      ensures Products() == (if tab == RepuestosTab then repuestos else motocargueros)
      ensures ShowsMore() <==> tab == RepuestosTab
      ensures old(activeTab) == tab ==> Products() == old(Products())
    {
      activeTab := tab;
    }
  }
}
