/**
 * Product records: the base product and its electronics variant.
 * A record's id, name and (for electronics) warranty never change; its
 * quantity and price change only through guarded setters that refuse a
 * negative value and keep the old one. Prices are whole numbers of cents.
 */
module Products {
  import opened Text

  /** Which of the two record classes a record belongs to; an electronics record carries its warranty. */
  datatype Kind = General | Electronics(warranty: string)

  /** What a product's fields hold at one moment. */
  datatype Record = Record(id: int, name: string, quantity: int, price: int, kind: Kind)

  /** The effect of setQuantity on a record: a negative quantity is refused and nothing changes. */
  function WithQuantity(r: Record, q: int): (r': Record)
    ensures q >= 0 ==> r'.quantity == q
    ensures q < 0 ==> r' == r
    ensures r'.id == r.id && r'.name == r.name && r'.price == r.price && r'.kind == r.kind
    ensures r.quantity >= 0 ==> r'.quantity >= 0
  {
    if q >= 0 then r.(quantity := q) else r
  }

  /** The effect of setPrice on a record: a negative price is refused and nothing changes. */
  function WithPrice(r: Record, p: int): (r': Record)
    ensures p >= 0 ==> r'.price == p
    ensures p < 0 ==> r' == r
    ensures r'.id == r.id && r'.name == r.name && r'.quantity == r.quantity && r'.kind == r.kind
    ensures r.price >= 0 ==> r'.price >= 0
  {
    if p >= 0 then r.(price := p) else r
  }

  /** The line that separates records in a listing. */
  const Divider := "--------------------"

  /** The one line that Product.display prints. */
  function ProductLine(r: Record): (line: string)
    ensures |line| > 4 && line[..4] == "ID: "
  {
    var line := "ID: " + IntToString(r.id) + ", Name: " + r.name + ", Quantity: " + IntToString(r.quantity)
      + ", Price: $" + PriceToString(r.price);
    assert line[..4] == "ID: ";
    line
  }

  function WarrantyLine(warranty: string): (line: string)
    ensures |line| >= 10 && line[..10] == "Warranty: " && line[10..] == warranty
  {
    "Warranty: " + warranty
  }

  /**
   * The lines a record displays, chosen by its kind as the overriding
   * display method is: the base product line, and for electronics the
   * warranty line after it. No displayed line is a divider.
   */
  function Display(r: Record): (lines: seq<string>)
    ensures |lines| == (if r.kind.General? then 1 else 2)
    ensures lines[0] == ProductLine(r)
    ensures r.kind.Electronics? ==> lines[1] == WarrantyLine(r.kind.warranty)
    ensures Divider !in lines
  {
    var base := [ProductLine(r)];
    assert ProductLine(r)[0] == 'I';
    match r.kind
    case General => base
    case Electronics(w) =>
      assert WarrantyLine(w)[0] == 'W';
      base + [WarrantyLine(w)]
  }

  /** A product object. Electronics are products whose kind carries a warranty. */
  class Product {
    const id: int
    const name: string
    var quantity: int
    var price: int
    const kind: Kind

    /** A general product; the constructor stores its arguments unchecked. */
    constructor (id: int, name: string, quantity: int, price: int)
      ensures Snapshot() == Record(id, name, quantity, price, General)
    {
      this.id := id;
      this.name := name;
      this.quantity := quantity;
      this.price := price;
      this.kind := General;
    }

    /** An electronics product: the base fields and the warranty. */
    constructor Electronics(id: int, name: string, quantity: int, price: int, warranty: string)
      ensures Snapshot() == Record(id, name, quantity, price, Kind.Electronics(warranty))
    {
      this.id := id;
      this.name := name;
      this.quantity := quantity;
      this.price := price;
      this.kind := Kind.Electronics(warranty);
    }

    function Snapshot(): Record
      reads this
    {
      Record(id, name, quantity, price, kind)
    }

    method SetQuantity(q: int)
      modifies this
      ensures q >= 0 ==> quantity == q
      ensures q < 0 ==> quantity == old(quantity)
      ensures price == old(price)
      ensures Snapshot() == WithQuantity(old(Snapshot()), q)
    {
      if q >= 0 {
        quantity := q;
      }
    }

    method SetPrice(p: int)
      modifies this
      ensures p >= 0 ==> price == p
      ensures p < 0 ==> price == old(price)
      ensures quantity == old(quantity)
      ensures Snapshot() == WithPrice(old(Snapshot()), p)
    {
      if p >= 0 {
        price := p;
      }
    }
  }
}
