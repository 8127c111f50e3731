/** The state of the shopping list component: the product list, the three
    text fields the user types a new product into, and the error shown
    under them. Adding validates the fields in a fixed order and stops at
    the first check that fails; toggling and removing replace the list. */
module ShoppingList {
  import opened Text
  import opened Numeric
  import opened Products

  /** The error line: empty, or one of the three validation failures. */
  datatype Error = NoError | MissingField | InvalidQuantity | Duplicate

  /** What validating the fields decides: the product to append, or the
      error to show. */
  datatype Verdict = Accept(item: Product) | Reject(error: Error)

  /** A stored entry has the name and unit typed into the fields, compared
      after trimming the fields and lowering case on both sides. */
  predicate Matches(p: Product, name: string, unit: string) {
    ToLower(p.name) == ToLower(Trim(name)) && ToLower(p.unit) == ToLower(Trim(unit))
  }

  /** Trimming the fields before the duplicate check changes nothing: the
      check already compares the trimmed text. */
  lemma MatchesIgnoresRetrim(p: Product, name: string, unit: string)
    ensures Matches(p, Trim(name), Trim(unit)) <==> Matches(p, name, unit)
  {
    TrimIdempotent(name);
    TrimIdempotent(unit);
  }

  /** `products.some(...)` in the duplicate check. */
  function HasProduct(ps: seq<Product>, name: string, unit: string): (r: bool)
    ensures r <==> exists i :: 0 <= i < |ps| && Matches(ps[i], name, unit)
  {
    if ps == [] then false
    else if Matches(ps[0], name, unit) then true
    else
      var r := HasProduct(ps[1..], name, unit);
      assert forall i :: 1 <= i < |ps| ==> ps[i] == ps[1..][i - 1];
      r
  }

  predicate AnyBlank(name: string, quantity: string, unit: string) {
    Trim(name) == [] || Trim(quantity) == [] || Trim(unit) == []
  }

  /** The decision `addProduct` takes on the current list and fields, with
      `id` the time stamp the new entry would get. An accepted entry always
      satisfies the stored-entry invariant, is not yet purchased and clashes
      with no stored entry. */
  function CheckAdd(ps: seq<Product>, name: string, quantity: string, unit: string, id: int): (r: Verdict)
    ensures r.Reject? ==> r.error != NoError
    ensures r.Accept? ==> Stored(r.item) && r.item.id == id && !r.item.purchased
    ensures r.Accept? ==> forall i :: 0 <= i < |ps| ==> !SameKey(ps[i], r.item)
  {
    if AnyBlank(name, quantity, unit) then Reject(MissingField)
    else if !IsPositiveQuantity(quantity) then Reject(InvalidQuantity)
    else if HasProduct(ps, name, unit) then Reject(Duplicate)
    else
      Accept(Product(id, Trim(name), ParseNumber(quantity).value, Trim(unit), false))
  }

  /** Which error is reported: a blank field wins over every other check,
      then a quantity that is not a positive number, then a duplicate; only
      when none applies is the product accepted, with the trimmed name and
      unit and the parsed quantity. */
  lemma CheckAddPrecedence(ps: seq<Product>, name: string, quantity: string, unit: string, id: int)
    ensures CheckAdd(ps, name, quantity, unit, id) == Reject(MissingField) <==> AnyBlank(name, quantity, unit)
    ensures CheckAdd(ps, name, quantity, unit, id) == Reject(InvalidQuantity)
        <==> !AnyBlank(name, quantity, unit) && !IsPositiveQuantity(quantity)
    ensures CheckAdd(ps, name, quantity, unit, id) == Reject(Duplicate)
        <==> !AnyBlank(name, quantity, unit) && IsPositiveQuantity(quantity) &&
             exists i :: 0 <= i < |ps| && Matches(ps[i], name, unit)
    ensures CheckAdd(ps, name, quantity, unit, id).Accept? ==>
      var p := CheckAdd(ps, name, quantity, unit, id).item;
      p.name == Trim(name) && p.unit == Trim(unit) && Some(p.quantity) == ParseNumber(quantity)
  {
  }

  /** A successful add keeps the list's invariant: no two entries share a
      name and unit, every quantity is positive. */
  lemma AddKeepsWellFormed(ps: seq<Product>, name: string, quantity: string, unit: string, id: int)
    requires WellFormed(ps)
    requires CheckAdd(ps, name, quantity, unit, id).Accept?
    ensures WellFormed(ps + [CheckAdd(ps, name, quantity, unit, id).item])
  {
    AppendKeepsWellFormed(ps, CheckAdd(ps, name, quantity, unit, id).item);
  }

  /** A successful add adds one to the count of products to buy. */
  lemma AddCountsOneMore(ps: seq<Product>, name: string, quantity: string, unit: string, id: int)
    requires CheckAdd(ps, name, quantity, unit, id).Accept?
    ensures NotPurchasedCount(ps + [CheckAdd(ps, name, quantity, unit, id).item]) == NotPurchasedCount(ps) + 1
  {
    NotPurchasedCountAppend(ps, CheckAdd(ps, name, quantity, unit, id).item);
  }

  /** Once a product is added, typing the same name and unit again, in any
      letter case and with any surrounding white space, and any valid
      quantity, is reported as a duplicate. */
  lemma AddAgainIsDuplicate(ps: seq<Product>, name: string, quantity: string, unit: string, id: int,
                            name': string, quantity': string, unit': string, id': int)
    requires CheckAdd(ps, name, quantity, unit, id).Accept?
    requires ToLower(Trim(name')) == ToLower(Trim(name)) && ToLower(Trim(unit')) == ToLower(Trim(unit))
    requires !AnyBlank(name', quantity', unit') && IsPositiveQuantity(quantity')
    ensures CheckAdd(ps + [CheckAdd(ps, name, quantity, unit, id).item], name', quantity', unit', id') == Reject(Duplicate)
  {
    var r := ps + [CheckAdd(ps, name, quantity, unit, id).item];
    assert Matches(r[|ps|], name', unit');
  }

  /** The component's state. `products` only ever holds a well-formed list;
      the three fields hold whatever the user has typed. */
  class Store {
    var products: seq<Product>
    var name: string
    var quantity: string
    var unit: string
    var error: Error

    ghost predicate Valid()
      reads this`products
    {
      WellFormed(products)
    }

    /** The initial state: no products, empty fields, no error. */
    constructor ()
      ensures Valid()
      ensures products == [] && name == [] && quantity == [] && unit == [] && error == NoError
    {
      products := [];
      name := [];
      quantity := [];
      unit := [];
      error := NoError;
    }

    /** The name field's change handler. */
    method SetName(s: string)
      modifies this`name
      ensures name == s
    {
      name := s;
    }

    /** The quantity field's change handler. */
    method SetQuantity(s: string)
      modifies this`quantity
      ensures quantity == s
    {
      quantity := s;
    }

    /** The unit field's change handler. */
    method SetUnit(s: string)
      modifies this`unit
      ensures unit == s
    {
      unit := s;
    }

    /** `addProduct`, with `now` the time stamp the new entry gets. A
        rejected add only sets the error; an accepted one appends the new
        entry and clears the three fields and the error. */
    method AddProduct(now: int)
      requires Valid()
      modifies this
      ensures Valid()
      ensures var v := CheckAdd(old(products), old(name), old(quantity), old(unit), now);
        v.Reject? ==>
          error == v.error && products == old(products) &&
          name == old(name) && quantity == old(quantity) && unit == old(unit)
      ensures var v := CheckAdd(old(products), old(name), old(quantity), old(unit), now);
        v.Accept? ==>
          products == old(products) + [v.item] && error == NoError &&
          name == [] && quantity == [] && unit == []
    {
      ghost var verdict := CheckAdd(products, name, quantity, unit, now);
      if Trim(name) == [] || Trim(quantity) == [] || Trim(unit) == [] {
        assert verdict == Reject(MissingField);
        error := MissingField;
        return;
      }

      var q := ParseNumber(quantity);
      if q.None? || q.value <= 0.0 {
        assert verdict == Reject(InvalidQuantity);
        error := InvalidQuantity;
        return;
      }

      if HasProduct(products, name, unit) {
        assert verdict == Reject(Duplicate);
        error := Duplicate;
        return;
      }

      var p := Product(now, Trim(name), q.value, Trim(unit), false);
      assert verdict == Accept(p);
      AppendKeepsWellFormed(products, p);
      products := products + [p];
      assert Valid();
      name := [];
      quantity := [];
      unit := [];
      error := NoError;
    }

    /** `togglePurchased(id)`. */
    method TogglePurchased(id: int)
      requires Valid()
      modifies this`products
      ensures Valid()
      ensures products == Toggle(old(products), id)
    {
      ToggleKeepsWellFormed(products, id);
      products := Toggle(products, id);
    }

    /** `removeProduct(id)`. */
    method RemoveProduct(id: int)
      requires Valid()
      modifies this`products
      ensures Valid()
      ensures products == Remove(old(products), id)
    {
      RemoveKeepsWellFormed(products, id);
      products := Remove(products, id);
    }
  }
}
