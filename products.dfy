/** The product list of the shopping list and the pure operations on it:
    flipping the purchased flag (a `map` over the list), removing by id (a
    `filter`), and the count of products still to buy. */
module Products {
  import opened Text

  /** One entry of the list. The id is the time stamp taken when the entry
      was added; nothing makes it unique, so the operations below act on
      every entry that carries the id they are given. */
  datatype Product = Product(id: int, name: string, quantity: real, unit: string, purchased: bool)

  /** Two entries name the same thing: equal name and equal unit, both
      compared after lowering case. */
  predicate SameKey(a: Product, b: Product) {
    ToLower(a.name) == ToLower(b.name) && ToLower(a.unit) == ToLower(b.unit)
  }

  predicate NoDuplicates(ps: seq<Product>) {
    forall i, j :: 0 <= i < j < |ps| ==> !SameKey(ps[i], ps[j])
  }

  /** What every stored entry satisfies: a positive quantity and a
      non-empty, already trimmed name and unit (see `TrimmedIsTrim`). */
  predicate Stored(p: Product) {
    p.quantity > 0.0 && IsTrimmed(p.name) && IsTrimmed(p.unit)
  }

  /** The invariant of the list. */
  predicate WellFormed(ps: seq<Product>) {
    NoDuplicates(ps) && forall i :: 0 <= i < |ps| ==> Stored(ps[i])
  }

  /** `s` is `t` with some entries left out, the rest in their order. */
  predicate IsSubsequence(s: seq<Product>, t: seq<Product>)
    decreases |t|
  {
    if t == [] then s == []
    else (s != [] && s[0] == t[0] && IsSubsequence(s[1..], t[1..])) || IsSubsequence(s, t[1..])
  }

  /** The number of entries with id `id`. */
  function Occurrences(ps: seq<Product>, id: int): (n: nat)
    ensures n <= |ps|
    ensures n == 0 <==> forall i :: 0 <= i < |ps| ==> ps[i].id != id
  {
    if ps == [] then 0
    else (if ps[0].id == id then 1 else 0) + Occurrences(ps[1..], id)
  }

  /** The number of entries with id `id` whose purchased flag is `purchased`. */
  function Matching(ps: seq<Product>, id: int, purchased: bool): (n: nat)
    ensures n <= Occurrences(ps, id)
  {
    if ps == [] then 0
    else (if ps[0].id == id && ps[0].purchased == purchased then 1 else 0) + Matching(ps[1..], id, purchased)
  }

  /** `togglePurchased(id)`: every entry keeps its place and every field but
      the purchased flag, and the flag flips exactly on the entries whose id
      is `id`. */
  function Toggle(ps: seq<Product>, id: int): (r: seq<Product>)
    ensures |r| == |ps|
    ensures forall i :: 0 <= i < |ps| ==>
      r[i].id == ps[i].id && r[i].name == ps[i].name &&
      r[i].quantity == ps[i].quantity && r[i].unit == ps[i].unit
    ensures forall i :: 0 <= i < |ps| ==> (r[i].purchased != ps[i].purchased <==> ps[i].id == id)
  {
    if ps == [] then []
    else
      var p := ps[0];
      [if p.id == id then p.(purchased := !p.purchased) else p] + Toggle(ps[1..], id)
  }

  /** `removeProduct(id)`: exactly the entries whose id differs from `id`,
      in their original order. */
  function Remove(ps: seq<Product>, id: int): (r: seq<Product>)
    ensures IsSubsequence(r, ps)
    ensures forall i :: 0 <= i < |r| ==> r[i].id != id
    ensures |r| == |ps| - Occurrences(ps, id)
    ensures forall x :: x in r <==> x in ps && x.id != id
  {
    if ps == [] then []
    else if ps[0].id == id then Remove(ps[1..], id)
    else
      var rest := Remove(ps[1..], id);
      assert ([ps[0]] + rest)[1..] == rest;
      [ps[0]] + rest
  }

  /** `notPurchasedCount`: how many entries are still to buy. */
  function NotPurchasedCount(ps: seq<Product>): (n: nat)
    ensures n <= |ps|
    ensures n == 0 <==> forall i :: 0 <= i < |ps| ==> ps[i].purchased
    ensures n == |ps| <==> forall i :: 0 <= i < |ps| ==> !ps[i].purchased
  {
    if ps == [] then 0
    else (if ps[0].purchased then 0 else 1) + NotPurchasedCount(ps[1..])
  }

  // Toggle

  /** Toggling the same id twice gives back the original list. */
  lemma ToggleTwice(ps: seq<Product>, id: int)
    ensures Toggle(Toggle(ps, id), id) == ps
  {
  }

  /** Toggling an id that no entry has changes nothing. */
  lemma ToggleAbsent(ps: seq<Product>, id: int)
    requires Occurrences(ps, id) == 0
    ensures Toggle(ps, id) == ps
  {
  }

  /** Toggling keeps the list's invariant: names, units and quantities are
      untouched. */
  lemma ToggleKeepsWellFormed(ps: seq<Product>, id: int)
    requires WellFormed(ps)
    ensures WellFormed(Toggle(ps, id))
  {
    var r := Toggle(ps, id);
    assert forall i :: 0 <= i < |ps| ==> r[i].name == ps[i].name && r[i].unit == ps[i].unit;
  }

  /** Each matching entry moves the count of products to buy by one: down
      for each one that was not purchased, up for each one that was. */
  lemma {:induction false} ToggleNotPurchasedCount(ps: seq<Product>, id: int)
    ensures NotPurchasedCount(Toggle(ps, id)) + Matching(ps, id, false)
         == NotPurchasedCount(ps) + Matching(ps, id, true)
  {
    if ps != [] {
      var r := Toggle(ps, id);
      assert r[1..] == Toggle(ps[1..], id);
      ToggleNotPurchasedCount(ps[1..], id);
    }
  }

  // Remove

  lemma {:induction false} SubsequenceMembers(s: seq<Product>, t: seq<Product>)
    requires IsSubsequence(s, t)
    ensures forall x :: x in s ==> x in t
    decreases |t|
  {
    if t != [] {
      if s != [] && s[0] == t[0] && IsSubsequence(s[1..], t[1..]) {
        SubsequenceMembers(s[1..], t[1..]);
        assert s == [s[0]] + s[1..];
      } else {
        SubsequenceMembers(s, t[1..]);
      }
    }
  }

  /** Leaving entries out of a list without duplicates cannot create one. */
  lemma {:induction false} SubsequenceKeepsNoDuplicates(s: seq<Product>, t: seq<Product>)
    requires IsSubsequence(s, t) && NoDuplicates(t)
    ensures NoDuplicates(s)
    decreases |t|
  {
    if t != [] {
      assert NoDuplicates(t[1..]);
      if s != [] && s[0] == t[0] && IsSubsequence(s[1..], t[1..]) {
        SubsequenceKeepsNoDuplicates(s[1..], t[1..]);
        SubsequenceMembers(s[1..], t[1..]);
        forall j | 0 < j < |s| ensures !SameKey(s[0], s[j]) {
          assert s[j] in s[1..];
          var k :| 0 <= k < |t[1..]| && t[1..][k] == s[j];
          assert t[k + 1] == s[j];
        }
      } else {
        SubsequenceKeepsNoDuplicates(s, t[1..]);
      }
    }
  }

  /** A subsequence whose entries all lack `id` has at most as many entries
      as the list has entries without `id`. */
  lemma {:induction false} SubsequenceBound(s: seq<Product>, t: seq<Product>, id: int)
    requires IsSubsequence(s, t)
    requires forall i :: 0 <= i < |s| ==> s[i].id != id
    ensures |s| <= |t| - Occurrences(t, id)
    decreases |t|
  {
    if t != [] {
      if s != [] && s[0] == t[0] && IsSubsequence(s[1..], t[1..]) {
        SubsequenceBound(s[1..], t[1..], id);
      } else {
        SubsequenceBound(s, t[1..], id);
      }
    }
  }

  /** The three facts Remove promises pin its result down: any subsequence
      of the list that has no entry with `id` and is as long as the list
      minus the entries with `id` is Remove's result. */
  lemma {:induction false} RemoveCharacterized(ps: seq<Product>, id: int, r: seq<Product>)
    requires IsSubsequence(r, ps)
    requires forall i :: 0 <= i < |r| ==> r[i].id != id
    requires |r| == |ps| - Occurrences(ps, id)
    ensures r == Remove(ps, id)
    decreases |ps|
  {
    if ps != [] {
      if r != [] && r[0] == ps[0] && IsSubsequence(r[1..], ps[1..]) {
        RemoveCharacterized(ps[1..], id, r[1..]);
        assert r == [r[0]] + r[1..];
      } else {
        if ps[0].id != id {
          SubsequenceBound(r, ps[1..], id);
        }
        RemoveCharacterized(ps[1..], id, r);
      }
    }
  }

  /** Removing an id that no entry has changes nothing. */
  lemma RemoveAbsent(ps: seq<Product>, id: int)
    requires Occurrences(ps, id) == 0
    ensures Remove(ps, id) == ps
  {
    SubsequenceReflexive(ps);
    RemoveCharacterized(ps, id, ps);
  }

  lemma {:induction false} SubsequenceReflexive(s: seq<Product>)
    ensures IsSubsequence(s, s)
    decreases |s|
  {
    if s != [] {
      SubsequenceReflexive(s[1..]);
    }
  }

  /** Removing the same id twice is the same as removing it once. */
  lemma RemoveIdempotent(ps: seq<Product>, id: int)
    ensures Remove(Remove(ps, id), id) == Remove(ps, id)
  {
    RemoveAbsent(Remove(ps, id), id);
  }

  /** Removing keeps the list's invariant. */
  lemma RemoveKeepsWellFormed(ps: seq<Product>, id: int)
    requires WellFormed(ps)
    ensures WellFormed(Remove(ps, id))
  {
    var r := Remove(ps, id);
    SubsequenceKeepsNoDuplicates(r, ps);
    forall i | 0 <= i < |r| ensures Stored(r[i]) {
      assert r[i] in ps;
    }
  }

  /** Removing drops from the count of products to buy exactly the matching
      entries that were not purchased. */
  lemma {:induction false} RemoveNotPurchasedCount(ps: seq<Product>, id: int)
    ensures NotPurchasedCount(Remove(ps, id)) == NotPurchasedCount(ps) - Matching(ps, id, false)
  {
    if ps != [] {
      RemoveNotPurchasedCount(ps[1..], id);
      if ps[0].id != id {
        var rest := Remove(ps[1..], id);
        assert ([ps[0]] + rest)[1..] == rest;
      }
    }
  }

  // Append

  /** Appending an entry that satisfies the stored-entry invariant and
      clashes with no entry of the list keeps the list's invariant. */
  lemma AppendKeepsWellFormed(ps: seq<Product>, p: Product)
    requires WellFormed(ps) && Stored(p)
    requires forall i :: 0 <= i < |ps| ==> !SameKey(ps[i], p)
    ensures WellFormed(ps + [p])
  {
    var r := ps + [p];
    forall i, j | 0 <= i < j < |r| ensures !SameKey(r[i], r[j]) {
      assert r[i] == ps[i];
    }
  }

  // Ids

  /** No two entries share an id: what a clock that never repeats a time
      stamp would give. */
  predicate DistinctIds(ps: seq<Product>) {
    forall i, j :: 0 <= i < j < |ps| ==> ps[i].id != ps[j].id
  }

  /** Appending an entry whose id is new keeps the ids distinct. */
  lemma AppendKeepsDistinctIds(ps: seq<Product>, p: Product)
    requires DistinctIds(ps) && Occurrences(ps, p.id) == 0
    ensures DistinctIds(ps + [p])
  {
    var r := ps + [p];
    forall i, j | 0 <= i < j < |r| ensures r[i].id != r[j].id {
      assert r[i] == ps[i];
    }
  }

  /** With distinct ids an id occurs at most once. */
  lemma {:induction false} DistinctIdsOccurOnce(ps: seq<Product>, id: int)
    requires DistinctIds(ps)
    ensures Occurrences(ps, id) <= 1
  {
    if ps != [] {
      assert DistinctIds(ps[1..]);
      DistinctIdsOccurOnce(ps[1..], id);
      if ps[0].id == id {
        assert forall i :: 0 <= i < |ps[1..]| ==> ps[1..][i].id != id by {
          forall i | 0 <= i < |ps[1..]| ensures ps[1..][i].id != id {
            assert ps[1..][i] == ps[i + 1];
          }
        }
      }
    }
  }

  /** With distinct ids, removing the id of an entry of the list removes
      that one entry and no other. */
  lemma RemoveOneOfDistinct(ps: seq<Product>, k: nat)
    requires DistinctIds(ps) && k < |ps|
    ensures Remove(ps, ps[k].id) == ps[..k] + ps[k + 1..]
  {
    var id := ps[k].id;
    var r := ps[..k] + ps[k + 1..];
    assert |r| == |ps| - 1;
    DistinctIdsOccurOnce(ps, id);
    assert Occurrences(ps, id) == 1 by {
      assert ps[k].id == id;
    }
    SubsequenceSkipOne(ps, k);
    forall i | 0 <= i < |r| ensures r[i].id != id {
      if i < k { assert r[i] == ps[i]; } else { assert r[i] == ps[i + 1]; }
    }
    RemoveCharacterized(ps, id, r);
  }

  lemma {:induction false} SubsequenceSkipOne(ps: seq<Product>, k: nat)
    requires k < |ps|
    ensures IsSubsequence(ps[..k] + ps[k + 1..], ps)
    decreases k
  {
    if k == 0 {
      assert ps[..0] + ps[1..] == ps[1..];
      SubsequenceReflexive(ps[1..]);
    } else {
      SubsequenceSkipOne(ps[1..], k - 1);
      var r := ps[..k] + ps[k + 1..];
      assert r[0] == ps[0];
      assert r[1..] == ps[1..][..k - 1] + ps[1..][k..];
    }
  }

  // Count

  /** Appending one entry adds one to the count when it is not purchased. */
  lemma {:induction false} NotPurchasedCountAppend(ps: seq<Product>, p: Product)
    ensures NotPurchasedCount(ps + [p]) == NotPurchasedCount(ps) + (if p.purchased then 0 else 1)
  {
    if ps != [] {
      assert (ps + [p])[1..] == ps[1..] + [p];
      NotPurchasedCountAppend(ps[1..], p);
    }
  }
}
