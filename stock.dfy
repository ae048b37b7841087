/**
 * The stock management system: the list of product objects it owns, the
 * lookups over it, the add, view, update and delete flows, and the menu
 * loop. Each flow takes the values the console input helpers return as
 * arguments, and is proved to act on the list as its counterpart in
 * Inventory says.
 */
module StockManagement {
  import opened Wrappers
  import opened Products
  import opened Inventory
  import opened Menu

  /** The records the product objects hold, in list order. */
  function Snapshots(ps: seq<Product>): (rs: seq<Record>)
    reads ps
    ensures |rs| == |ps| && forall i :: 0 <= i < |ps| ==> rs[i] == ps[i].Snapshot()
  {
    seq(|ps|, i reads ps requires 0 <= i < |ps| => ps[i].Snapshot())
  }

  lemma SnapshotsRemove(ps: seq<Product>, i: nat)
    requires i < |ps|
    ensures Snapshots(ps[..i] + ps[i + 1..]) == Snapshots(ps)[..i] + Snapshots(ps)[i + 1..]
  {
    var qs, rs := ps[..i] + ps[i + 1..], Snapshots(ps);
    var left, right := Snapshots(qs), rs[..i] + rs[i + 1..];
    assert |left| == |right|;
    forall j | 0 <= j < |left|
      ensures left[j] == right[j]
    {
      if j < i {
        assert qs[j] == ps[j];
      } else {
        assert qs[j] == ps[j + 1];
      }
    }
  }

  class StockManagementSystem {
    var products: seq<Product>
    /** The product objects the system owns: every listed product is one of them. */
    ghost var Repr: set<Product>

    /** The store's value: what its product objects hold, in list order. */
    function Contents(): seq<Record>
      reads this, products
    {
      Snapshots(products)
    }

    ghost predicate Valid()
      reads this, Repr
    {
      (forall p :: p in products ==> p in Repr) && Inventory.Valid(Contents())
    }

    /** A system starts with an empty list. */
    constructor ()
      ensures Valid() && Contents() == [] && fresh(Repr)
    {
      products := [];
      Repr := {};
    }

    /** The position of the first product in list order with the given id, or None. */
    function FindProductById(id: int): (r: Option<nat>)
      reads this, products
      ensures r.Some? ==> r.value < |products| && products[r.value].id == id
      ensures r.Some? ==> forall j :: 0 <= j < r.value ==> products[j].id != id
      ensures r.None? <==> forall j :: 0 <= j < |products| ==> products[j].id != id
      ensures r == Find(Contents(), id)
    {
      Find(Contents(), id)
    }

    /** Some product has the given id. */
    predicate IsProductIdTaken(id: int)
      reads this, products
      ensures IsProductIdTaken(id) <==> FindProductById(id).Some?
      ensures IsProductIdTaken(id) == IsTaken(Contents(), id)
    {
      IsTaken(Contents(), id)
    }

    /**
     * The unique-id loop of both add flows: the ids the user types are
     * tried in order until one is not taken. The result is that id's
     * position, or |attempts| when all of them are taken.
     */
    method ReadUniqueId(attempts: seq<int>) returns (k: nat)
      ensures k <= |attempts|
      ensures forall j :: 0 <= j < k ==> IsProductIdTaken(attempts[j])
      ensures k < |attempts| ==> !IsProductIdTaken(attempts[k])
      ensures k == FirstFree(Contents(), attempts)
    {
      k := 0;
      while k < |attempts|
        invariant k <= |attempts|
        invariant forall j :: 0 <= j < k ==> IsProductIdTaken(attempts[j])
      {
        if !IsProductIdTaken(attempts[k]) {
          break;
        }
        k := k + 1;
      }
      FirstFreeUnique(Contents(), attempts, k);
    }

    /** Appends a record with an id no product has; the objects already listed are left as they are. */
    method Append(p: Product)
      requires Valid() && Inventory.Valid(Contents() + [p.Snapshot()])
      modifies this
      ensures Valid() && Repr == old(Repr) + {p}
      ensures products == old(products) + [p]
      ensures Contents() == old(Contents()) + [p.Snapshot()]
    {
      products := products + [p];
      Repr := Repr + {p};
      forall j | 0 <= j < |old(products)|
        ensures Contents()[j] == old(Contents())[j]
      {
        assert products[j] == old(products)[j];
      }
      assert Contents() == old(Contents()) + [p.Snapshot()];
    }

    /** Adds a general product under the first free id the user types. */
    method AddGeneralProduct(attempts: seq<int>, name: string, quantity: int, price: int) returns (k: nat)
      requires Valid()
      requires forall j :: 0 <= j < |attempts| ==> attempts[j] >= 0
      requires quantity >= 0 && price >= 0
      modifies this
      ensures Valid()
      ensures k == FirstFree(old(Contents()), attempts)
      ensures Contents() == AddFlow(old(Contents()), attempts, name, quantity, price, General)
      ensures fresh(Repr - old(Repr))
    {
      k := ReadUniqueId(attempts);
      ghost var before := Contents();
      AddFlowCorrect(before, attempts, name, quantity, price, General);
      if k < |attempts| {
        var p := new Product(attempts[k], name, quantity, price);
        assert before + [p.Snapshot()] == AddFlow(before, attempts, name, quantity, price, General);
        Append(p);
      }
    }

    /** Adds an electronics product, with its warranty, under the first free id the user types. */
    method AddElectronicsProduct(attempts: seq<int>, name: string, quantity: int, price: int, warranty: string)
      returns (k: nat)
      requires Valid()
      requires forall j :: 0 <= j < |attempts| ==> attempts[j] >= 0
      requires quantity >= 0 && price >= 0
      modifies this
      ensures Valid()
      ensures k == FirstFree(old(Contents()), attempts)
      ensures Contents() == AddFlow(old(Contents()), attempts, name, quantity, price, Kind.Electronics(warranty))
      ensures fresh(Repr - old(Repr))
    {
      k := ReadUniqueId(attempts);
      ghost var before := Contents();
      AddFlowCorrect(before, attempts, name, quantity, price, Kind.Electronics(warranty));
      if k < |attempts| {
        var p := new Product.Electronics(attempts[k], name, quantity, price, warranty);
        assert before + [p.Snapshot()] == AddFlow(before, attempts, name, quantity, price, Kind.Electronics(warranty));
        Append(p);
      }
    }

    /** The lines viewing all products shows, without changing anything. */
    method ViewAllProducts() returns (lines: seq<string>)
      ensures lines == Listing(Contents())
    {
      if |products| == 0 {
        lines := [NoProductsLine];
        return;
      }
      ghost var rs := Contents();
      lines := ListHeader;
      assert lines == Lists.Concat([ListHeader] + BlockList(rs[..0])) by {
        assert [ListHeader] + BlockList(rs[..0]) == [ListHeader];
        Lists.ConcatSingleton(ListHeader);
      }
      for i := 0 to |products|
        invariant lines == Lists.Concat([ListHeader] + BlockList(rs[..i]))
      {
        var block := Display(products[i].Snapshot()) + [Divider];
        lines := lines + block;
        ListingSnoc(rs, i);
      }
      assert rs[..|products|] == rs;
    }

    /**
     * Updates the quantity (sub-choice 1) or the price (sub-choice 2) of the
     * product found for the target id, in place, through its guarded setter.
     */
    method UpdateProduct(target: int, field: int, value: int) returns (outcome: UpdateOutcome, shown: seq<string>)
      requires Valid()
      modifies Repr
      ensures Valid()
      ensures (Contents(), outcome) == UpdateFlow(old(Contents()), target, field, value)
      ensures shown == UpdatePreview(old(Contents()), target)
    {
      shown := [];
      if |products| == 0 {
        outcome := NothingToUpdate;
        return;
      }
      var found := FindProductById(target);
      match found
      case None =>
        outcome := UpdateNotFound;
      case Some(i) =>
        ghost var before := Contents();
        shown := Display(products[i].Snapshot());
        assert shown == UpdatePreview(before, target);
        outcome := SetField(i, field, value);
        assert (Contents(), outcome) == UpdateFlow(before, target, field, value);
    }

    /** The update sub-menu: sub-choice 1 sets the quantity, 2 the price, of the product at position i. */
    method SetField(i: nat, field: int, value: int) returns (outcome: UpdateOutcome)
      requires Valid() && i < |products|
      modifies Repr
      ensures Valid()
      ensures field == 1 ==> outcome == QuantityUpdated && Contents() == old(Contents())[i := WithQuantity(old(Contents())[i], value)]
      ensures field == 2 ==> outcome == PriceUpdated && Contents() == old(Contents())[i := WithPrice(old(Contents())[i], value)]
      ensures field != 1 && field != 2 ==> outcome == InvalidUpdateChoice && Contents() == old(Contents())
    {
      ghost var before := Contents();
      if field == 1 {
        products[i].SetQuantity(value);
        outcome := QuantityUpdated;
        Untouched(before, i);
        assert Contents() == before[i := WithQuantity(before[i], value)];
      } else if field == 2 {
        products[i].SetPrice(value);
        outcome := PriceUpdated;
        Untouched(before, i);
        assert Contents() == before[i := WithPrice(before[i], value)];
      } else {
        outcome := InvalidUpdateChoice;
      }
      assert Inventory.Valid(Contents());
    }

    /** After one product object changed, every other product still holds what it held. */
    lemma Untouched(before: seq<Record>, i: nat)
      requires |before| == |products| && i < |products|
      requires Inventory.UniqueIds(before)
      requires forall j :: 0 <= j < |products| ==> before[j].id == products[j].id
      requires forall j :: 0 <= j < |products| && products[j] != products[i] ==> products[j].Snapshot() == before[j]
      ensures forall j :: 0 <= j < |products| && j != i ==> Contents()[j] == before[j]
    {
      forall j | 0 <= j < |products| && j != i
        ensures Contents()[j] == before[j]
      {
        assert products[j].id != products[i].id;
      }
    }

    /** Removes the product found for the target id; the others keep their order. */
    method DeleteProduct(target: int) returns (outcome: DeleteOutcome)
      requires Valid()
      modifies this
      ensures Valid()
      ensures (Contents(), outcome) == DeleteFlow(old(Contents()), target)
      ensures Repr == old(Repr)
    {
      if |products| == 0 {
        outcome := NothingToDelete;
        return;
      }
      var found := FindProductById(target);
      match found
      case None =>
        outcome := DeleteNotFound;
      case Some(i) =>
        ghost var before := Contents();
        SnapshotsRemove(products, i);
        products := products[..i] + products[i + 1..];
        outcome := Deleted;
        assert Contents() == DeleteFlow(before, target).0;
        assert Inventory.Valid(Contents());
    }

    /**
     * The menu loop over a session: each pass dispatches on its choice,
     * until choice 6 exits, an add flow is left waiting for a free id, or
     * the session ends. Returns what the views showed, how the loop ended
     * and how many passes it read; the list ends as RunFrom says.
     */
    method Run(session: seq<Entry>) returns (shown: seq<string>, status: Status, consumed: nat)
      requires Valid()
      requires forall k :: 0 <= k < |session| ==> WellFormed(session[k])
      modifies this, Repr
      ensures Valid() && fresh(Repr - old(Repr))
      ensures RunFrom(old(Contents()), session) == RunResult(Contents(), shown, status, consumed)
    {
      shown, status, consumed := [], Running, 0;
      while status == Running && consumed < |session|
        invariant consumed <= |session|
        invariant Valid() && fresh(Repr - old(Repr))
        invariant status == Running ==>
          RunFrom(old(Contents()), session) == After(shown, consumed, RunFrom(Contents(), session[consumed..]))
        invariant status != Running ==>
          RunFrom(old(Contents()), session) == RunResult(Contents(), shown, status, consumed)
      {
        var e := session[consumed];
        ghost var rest := session[consumed..];
        assert rest[0] == e && rest[1..] == session[consumed + 1..];
        RunFromUnfold(Contents(), rest, shown, consumed);
        var out, next := RunStep(e);
        shown, status, consumed := shown + out, next, consumed + 1;
      }
    }

    /** One pass of the menu loop: the switch on the choice. */
    method RunStep(e: Entry) returns (out: seq<string>, next: Status)
      requires Valid() && WellFormed(e)
      modifies this, Repr
      ensures Valid() && fresh(Repr - old(Repr))
      ensures Step(old(Contents()), e) == StepResult(Contents(), out, next)
    {
      ghost var before := Contents();
      var a := e.answers;
      out, next := [], Running;
      match Decode(e.choice)
      case AddGeneral =>
        var k := AddGeneralProduct(a.ids, a.name, a.quantity, a.price);
        if k == |a.ids| {
          next := WaitingForId;
        }
        assert Step(before, e) == StepResult(Contents(), out, next);
      case AddElectronics =>
        var k := AddElectronicsProduct(a.ids, a.name, a.quantity, a.price, a.warranty);
        if k == |a.ids| {
          next := WaitingForId;
        }
        assert Step(before, e) == StepResult(Contents(), out, next);
      case ViewAll =>
        out := ViewAllProducts();
        assert Step(before, e) == StepResult(Contents(), out, next);
      case Update =>
        var _, preview := UpdateProduct(a.target, a.field, a.value);
        out := preview;
        assert Step(before, e) == StepResult(Contents(), out, next);
      case Delete =>
        var _ := DeleteProduct(a.target);
        assert Step(before, e) == StepResult(Contents(), out, next);
      case Exit =>
        next := Exited;
      case Invalid =>
    }
  }
}
