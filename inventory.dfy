/**
 * The store as a value: the ordered list of records that the system holds,
 * and what each store operation does to it. The system's methods are proved
 * to act on their list exactly as these functions say.
 */
module Inventory {
  import opened Wrappers
  import opened Products
  import opened Lists

  /** No two records share an id. */
  predicate UniqueIds(rs: seq<Record>) {
    forall i, j :: 0 <= i < j < |rs| ==> rs[i].id != rs[j].id
  }

  /** Every id, quantity and price is non-negative. */
  predicate NonNegative(rs: seq<Record>) {
    forall i :: 0 <= i < |rs| ==> rs[i].id >= 0 && rs[i].quantity >= 0 && rs[i].price >= 0
  }

  /** The invariant the store keeps between menu actions. */
  predicate Valid(rs: seq<Record>) {
    UniqueIds(rs) && NonNegative(rs)
  }

  /** The position of the first record, in list order, with the given id. */
  function Find(rs: seq<Record>, id: int): (r: Option<nat>)
    ensures r.Some? ==> r.value < |rs| && rs[r.value].id == id
    ensures r.Some? ==> forall j :: 0 <= j < r.value ==> rs[j].id != id
    ensures r.None? <==> forall j :: 0 <= j < |rs| ==> rs[j].id != id
  {
    if rs == [] then None
    else if rs[0].id == id then Some(0)
    else match Find(rs[1..], id)
      case None => None
      case Some(k) => Some(k + 1)
  }

  /** Some record has the given id. */
  predicate IsTaken(rs: seq<Record>, id: int)
    ensures IsTaken(rs, id) <==> Find(rs, id).Some?
  {
    exists i :: 0 <= i < |rs| && rs[i].id == id
  }

  /** Under unique ids, the record with a given id is the only one found for it. */
  lemma FindUnique(rs: seq<Record>, i: nat)
    requires UniqueIds(rs) && i < |rs|
    ensures Find(rs, rs[i].id) == Some(i)
  {
  }

  /**
   * The position of the first id in `attempts` that no record has: the id
   * the add flow settles on. It is |attempts| when every attempt is taken.
   */
  function FirstFree(rs: seq<Record>, attempts: seq<int>): (k: nat)
    ensures k <= |attempts|
    ensures forall j :: 0 <= j < k ==> IsTaken(rs, attempts[j])
    ensures k < |attempts| ==> !IsTaken(rs, attempts[k])
  {
    if attempts == [] || !IsTaken(rs, attempts[0]) then 0
    else 1 + FirstFree(rs, attempts[1..])
  }

  /** Any position whose attempts before it are taken and which is free is the first free one. */
  lemma FirstFreeUnique(rs: seq<Record>, attempts: seq<int>, k: nat)
    requires k <= |attempts|
    requires forall j :: 0 <= j < k ==> IsTaken(rs, attempts[j])
    requires k < |attempts| ==> !IsTaken(rs, attempts[k])
    ensures k == FirstFree(rs, attempts)
  {
  }

  /**
   * Both add flows: the record with the first free id is appended; when
   * every attempt is taken the flow is still waiting for an id and the
   * store is unchanged.
   */
  function AddFlow(rs: seq<Record>, attempts: seq<int>, name: string, quantity: int, price: int, kind: Kind): seq<Record>
  {
    var k := FirstFree(rs, attempts);
    if k < |attempts| then rs + [Record(attempts[k], name, quantity, price, kind)] else rs
  }

  /**
   * An add appends exactly one record, last, with a fresh id, keeps every
   * earlier record, keeps the invariant and finds the new record by its id.
   */
  lemma AddFlowCorrect(rs: seq<Record>, attempts: seq<int>, name: string, quantity: int, price: int, kind: Kind)
    requires Valid(rs)
    requires forall j :: 0 <= j < |attempts| ==> attempts[j] >= 0
    requires quantity >= 0 && price >= 0
    ensures Valid(AddFlow(rs, attempts, name, quantity, price, kind))
    ensures FirstFree(rs, attempts) == |attempts| ==> AddFlow(rs, attempts, name, quantity, price, kind) == rs
    ensures FirstFree(rs, attempts) < |attempts| ==>
      var rs', id := AddFlow(rs, attempts, name, quantity, price, kind), attempts[FirstFree(rs, attempts)];
      && |rs'| == |rs| + 1
      && rs'[..|rs|] == rs
      && rs'[|rs|] == Record(id, name, quantity, price, kind)
      && !IsTaken(rs, id)
      && Find(rs', id) == Some(|rs|)
  {
    var k := FirstFree(rs, attempts);
    if k < |attempts| {
      var rs' := rs + [Record(attempts[k], name, quantity, price, kind)];
      assert rs'[..|rs|] == rs;
      FindUnique(rs', |rs|);
    }
  }

  datatype UpdateOutcome = NothingToUpdate | UpdateNotFound | QuantityUpdated | PriceUpdated | InvalidUpdateChoice

  /**
   * The update flow: on a non-empty store, find the record with the target
   * id; sub-choice 1 sets its quantity, 2 its price, through the guarded
   * setters; anything else changes nothing.
   */
  function UpdateFlow(rs: seq<Record>, target: int, field: int, value: int): (r: (seq<Record>, UpdateOutcome))
    ensures |r.0| == |rs|
    ensures r.1 == NothingToUpdate <==> rs == []
    ensures r.1 == UpdateNotFound <==> rs != [] && !IsTaken(rs, target)
    ensures r.1 in {NothingToUpdate, UpdateNotFound, InvalidUpdateChoice} ==> r.0 == rs
    ensures forall j :: 0 <= j < |rs| && Find(rs, target) != Some(j) ==> r.0[j] == rs[j]
    ensures rs != [] && Find(rs, target).Some? ==>
      var i := Find(rs, target).value;
      && (field == 1 ==> r.1 == QuantityUpdated && r.0[i] == WithQuantity(rs[i], value))
      && (field == 2 ==> r.1 == PriceUpdated && r.0[i] == WithPrice(rs[i], value))
      && (field != 1 && field != 2 ==> r.1 == InvalidUpdateChoice)
    ensures Valid(rs) ==> Valid(r.0)
  {
    if rs == [] then (rs, NothingToUpdate)
    else match Find(rs, target)
      case None => (rs, UpdateNotFound)
      case Some(i) =>
        if field == 1 then (rs[i := WithQuantity(rs[i], value)], QuantityUpdated)
        else if field == 2 then (rs[i := WithPrice(rs[i], value)], PriceUpdated)
        else (rs, InvalidUpdateChoice)
  }

  /**
   * What the update flow shows before its sub-menu: the current display of
   * the record found for the target id, whatever the sub-choice; nothing
   * when the store is empty or the id is unknown.
   */
  function UpdatePreview(rs: seq<Record>, target: int): (lines: seq<string>)
    ensures lines != [] <==> IsTaken(rs, target)
    ensures Find(rs, target).Some? ==> lines == Display(rs[Find(rs, target).value])
  {
    match Find(rs, target)
    case None => []
    case Some(i) => Display(rs[i])
  }

  datatype DeleteOutcome = NothingToDelete | DeleteNotFound | Deleted

  /** The delete flow: on a non-empty store, remove the record found for the target id. */
  function DeleteFlow(rs: seq<Record>, target: int): (r: (seq<Record>, DeleteOutcome))
    ensures r.1 == NothingToDelete <==> rs == []
    ensures r.1 == DeleteNotFound <==> rs != [] && !IsTaken(rs, target)
    ensures r.1 != Deleted ==> r.0 == rs
    ensures r.1 == Deleted ==> |r.0| == |rs| - 1
    ensures UniqueIds(rs) ==> !IsTaken(r.0, target)
    ensures Valid(rs) ==> Valid(r.0)
  {
    if rs == [] then (rs, NothingToDelete)
    else match Find(rs, target)
      case None => (rs, DeleteNotFound)
      case Some(i) => (rs[..i] + rs[i + 1..], Deleted)
  }

  /**
   * Deleting a present id removes exactly the record found: the records
   * before it stay in place, those after it move up by one, and the
   * multiset of records loses exactly that one.
   */
  lemma DeleteRemovesFound(rs: seq<Record>, target: int)
    requires Find(rs, target).Some?
    ensures var i, rs' := Find(rs, target).value, DeleteFlow(rs, target).0;
      && |rs'| == |rs| - 1
      && (forall j :: 0 <= j < i ==> rs'[j] == rs[j])
      && (forall j :: i <= j < |rs'| ==> rs'[j] == rs[j + 1])
      && multiset(rs') + multiset{rs[i]} == multiset(rs)
  {
    var i := Find(rs, target).value;
    assert DeleteFlow(rs, target).0 == rs[..i] + rs[i + 1..];
    RemoveAt(rs, i);
  }

  /** The lines one record contributes to a listing: its display, then a divider. */
  function Block(r: Record): seq<string> {
    Display(r) + [Divider]
  }

  /** The block of each record, in list order. */
  function BlockList(rs: seq<Record>): (parts: seq<seq<string>>)
    ensures |parts| == |rs| && forall i :: 0 <= i < |rs| ==> parts[i] == Block(rs[i])
  {
    seq(|rs|, i requires 0 <= i < |rs| => Block(rs[i]))
  }

  /** The blocks of the records joined in list order. */
  function Blocks(rs: seq<Record>): seq<string> {
    Concat(BlockList(rs))
  }

  const NoProductsLine := "No products available in the system."
  const ListHeader := ["", "--- Product List ---"]

  /** What viewing all products shows: the header, then the block of every record in list order. */
  function Listing(rs: seq<Record>): seq<string> {
    if rs == [] then [NoProductsLine] else Concat([ListHeader] + BlockList(rs))
  }

  /** A non-empty store lists as the header followed by the records' blocks. */
  lemma ListingShape(rs: seq<Record>)
    requires rs != []
    ensures Listing(rs) == ListHeader + Blocks(rs)
  {
    ConcatAppend([ListHeader], BlockList(rs));
    ConcatSingleton(ListHeader);
  }

  /** The header and the blocks of the first i + 1 records: one block more than for the first i. */
  lemma ListingSnoc(rs: seq<Record>, i: nat)
    requires i < |rs|
    ensures Concat([ListHeader] + BlockList(rs[..i + 1])) == Concat([ListHeader] + BlockList(rs[..i])) + Block(rs[i])
  {
    var parts := [ListHeader] + BlockList(rs[..i + 1]);
    assert parts[..|parts| - 1] == [ListHeader] + BlockList(rs[..i]);
  }

  /** Listing two runs of records one after the other is listing each in turn. */
  lemma BlocksAppend(a: seq<Record>, b: seq<Record>)
    ensures Blocks(a + b) == Blocks(a) + Blocks(b)
  {
    var l, r := BlockList(a + b), BlockList(a) + BlockList(b);
    assert |l| == |r|;
    forall i | 0 <= i < |l|
      ensures l[i] == r[i]
    {
      if i < |a| {
        assert (a + b)[i] == a[i];
      } else {
        assert (a + b)[i] == b[i - |a|];
      }
    }
    assert l == r;
    ConcatAppend(BlockList(a), BlockList(b));
  }

  /** A listing holds exactly one divider per record. */
  lemma OneDividerPerRecord(rs: seq<Record>)
    ensures Count(Divider, Blocks(rs)) == |rs|
  {
    forall i | 0 <= i < |rs|
      ensures Count(Divider, BlockList(rs)[i]) == 1
    {
      var d := Display(rs[i]);
      CountAbsent(Divider, d);
      CountAppend(Divider, d, [Divider]);
      assert [Divider][..0] == [];
    }
    CountConcat(Divider, BlockList(rs));
  }

  /** The blocks of a prefix of the records are that prefix of the blocks. */
  lemma BlockListPrefix(rs: seq<Record>, i: nat)
    requires i <= |rs|
    ensures BlockList(rs)[..i] == BlockList(rs[..i])
  {
    var l, lb := BlockList(rs)[..i], BlockList(rs[..i]);
    assert |l| == |lb|;
    forall j | 0 <= j < i
      ensures l[j] == lb[j]
    {
      assert rs[..i][j] == rs[j];
    }
  }

  /** The blocks of a suffix of the records are that suffix of the blocks. */
  lemma BlockListSuffix(rs: seq<Record>, i: nat)
    requires i <= |rs|
    ensures BlockList(rs)[i..] == BlockList(rs[i..])
  {
    var l, la := BlockList(rs)[i..], BlockList(rs[i..]);
    assert |l| == |la|;
    forall j | 0 <= j < |la|
      ensures l[j] == la[j]
    {
      assert rs[i..][j] == rs[i + j];
    }
  }

  /** In the listing each record's block stands at its place in list order. */
  lemma BlockInPlace(rs: seq<Record>, i: nat)
    requires i < |rs|
    ensures Blocks(rs) == Blocks(rs[..i]) + Block(rs[i]) + Blocks(rs[i + 1..])
  {
    ConcatInPlace(BlockList(rs), i);
    BlockListPrefix(rs, i);
    BlockListSuffix(rs, i + 1);
  }
}
