# Shopping list state, modelled in Dafny

This project models the state handling of the `ShoppingList` React
component (`src/App.tsx`): an ordered list of products, each with an id,
a name, a quantity, a unit and a purchased flag, plus the text the user has
typed into the name, quantity and unit fields and the error line shown
under them.

- **Adding** (`addProduct`) checks the three fields in a fixed order and stops
  at the first failure. First, every field must be non-blank after trimming.
  Second, the quantity must be a number greater than zero. Third, no stored
  product may have the same name and unit, compared after lowering case.
  On success the new product is appended, not purchased, with the trimmed
  name and unit and the parsed quantity. The three fields and the error are
  then cleared. On failure only the error changes.
- **Toggling** (`togglePurchased`) flips the purchased flag of every product
  with the given id.
- **Removing** (`removeProduct`) keeps every product whose id differs from the
  given one, in order.
- **`notPurchasedCount`** is the number of products not yet purchased.

Files and modules:

- `text.dfy` (`Text`): `trim()` and `toLowerCase()` on strings.
- `numeric.dfy` (`Numeric`): `Number(...)` applied to the quantity field. It
  yields an exact `real`, or `None` where JavaScript yields `NaN`.
- `products.dfy` (`Products`): the `Product` record, toggle, remove and the
  count as recursive functions on `seq<Product>`, and the list invariant
  `WellFormed`. The invariant says that no two products share a
  case-insensitive (name, unit) pair, and that every product has a positive
  quantity and a non-empty trimmed name and unit.
- `shopping_list.dfy` (`ShoppingList`): `CheckAdd`, the decision the add
  handler takes, stated as a function; and the class `Store`, whose fields
  are the component's five pieces of state. `Store.AddProduct` follows the
  handler's early returns and is proved to end in the state `CheckAdd`
  describes. `Store.Valid()` is `WellFormed(products)`, and every handler
  keeps it.

The id of a new product is the time stamp `Date.now()`. Here it is the
parameter `now` of `AddProduct`. Nothing in the source makes ids unique, so
toggle and remove are specified for every product that carries the id.
The lemmas under `DistinctIds` say what holds when the ids do happen to be
distinct.

## Model

| member | source | states |
|---|---|---|
| `Products.Toggle` | src/App.tsx:56-64 | the result has the same length; every product keeps its place, id, name, quantity and unit; the purchased flag changes exactly on the products whose id matches |
| `Products.ToggleTwice` | src/App.tsx:56-64 | toggling the same id twice restores the original list |
| `Products.ToggleAbsent` | src/App.tsx:56-64 | toggling an id no product has leaves the list unchanged |
| `Products.ToggleKeepsWellFormed` | src/App.tsx:56-64 | toggling preserves the no-duplicate and positive-quantity invariant |
| `Products.ToggleNotPurchasedCount` | src/App.tsx:56-70 | after a toggle the count of products to buy goes down by one per matching unpurchased product and up by one per matching purchased product |
| `Products.Remove` | src/App.tsx:66-68 | the result is a subsequence of the list; it holds no product with the id; its length is the list's length minus the products with that id; a value is in it iff it is in the list with another id |
| `Products.RemoveCharacterized` | src/App.tsx:66-68 | any subsequence with no product of that id and of that length is exactly the result of remove, so the three properties above determine it |
| `Products.RemoveAbsent` | src/App.tsx:66-68 | removing an id no product has leaves the list unchanged |
| `Products.RemoveIdempotent` | src/App.tsx:66-68 | removing the same id twice equals removing it once |
| `Products.RemoveKeepsWellFormed` | src/App.tsx:66-68 | removing preserves the no-duplicate and positive-quantity invariant |
| `Products.RemoveNotPurchasedCount` | src/App.tsx:66-70 | after a remove the count of products to buy drops by exactly the matching unpurchased products |
| `Products.RemoveOneOfDistinct` | src/App.tsx:66-68 | with distinct ids, removing the id of the product at position k gives the list without position k, the rest in order |
| `Products.SubsequenceKeepsNoDuplicates` | src/App.tsx:66-68 | leaving products out of a duplicate-free list cannot create a duplicate |
| `Products.NotPurchasedCount` | src/App.tsx:70 | the count is at most the list's length; it is zero iff every product is purchased and equals the length iff none is |
| `Products.NotPurchasedCountAppend` | src/App.tsx:49-70 | appending a product adds one to the count iff that product is not purchased |
| `Products.AppendKeepsWellFormed` | src/App.tsx:30-49 | appending a product that meets the stored-product conditions and clashes with no stored product keeps the list invariant |
| `Products.AppendKeepsDistinctIds` | src/App.tsx:41-49 | appending a product whose id is new keeps the ids distinct |
| `Products.DistinctIdsOccurOnce` | src/App.tsx:42 | with distinct ids an id occurs at most once |
| `ShoppingList.MatchesIgnoresRetrim` | src/App.tsx:30-35 | trimming the name and unit fields again before the duplicate check does not change its outcome |
| `ShoppingList.HasProduct` | src/App.tsx:30-36 | true iff some stored product's lowered name equals the lowered trimmed name field and its lowered unit equals the lowered trimmed unit field |
| `ShoppingList.CheckAdd` | src/App.tsx:19-47 | a rejection always carries an error; an accepted product is not purchased, carries the given id, has a positive quantity and a non-empty trimmed name and unit, and clashes with no stored product |
| `ShoppingList.CheckAddPrecedence` | src/App.tsx:20-47 | the missing-field error is reported iff some field is blank, whatever else holds; the quantity error iff no field is blank and the quantity is not a positive number; the duplicate error iff both earlier checks pass and some stored product matches; an accepted product has the trimmed name and unit and the parsed quantity |
| `ShoppingList.AddKeepsWellFormed` | src/App.tsx:30-49 | a successful add keeps the list free of case-insensitive (name, unit) duplicates, with all quantities positive |
| `ShoppingList.AddCountsOneMore` | src/App.tsx:41-49 | a successful add increases the count of products to buy by one |
| `ShoppingList.AddAgainIsDuplicate` | src/App.tsx:30-39 | after a successful add, adding the same name and unit again is reported as a duplicate; differences in letter case or surrounding white space do not matter, and any valid quantity gives the same result |
| `ShoppingList.Store.constructor` | src/App.tsx:13-17 | the initial state: no products, empty fields, no error |
| `ShoppingList.Store.SetName` | src/App.tsx:80 | the name field becomes the typed text; nothing else changes |
| `ShoppingList.Store.SetQuantity` | src/App.tsx:86 | the quantity field becomes the typed text; nothing else changes |
| `ShoppingList.Store.SetUnit` | src/App.tsx:92 | the unit field becomes the typed text; nothing else changes |
| `ShoppingList.Store.AddProduct` | src/App.tsx:19-54 | on a rejection only the error changes: it becomes the reason `CheckAdd` gives, and the list and fields are untouched; on acceptance the list is the old list plus the new product at the end, and the fields and error are cleared; the invariant is kept either way |
| `ShoppingList.Store.TogglePurchased` | src/App.tsx:56-64 | the list becomes `Toggle` of the old list; the invariant is kept |
| `ShoppingList.Store.RemoveProduct` | src/App.tsx:66-68 | the list becomes `Remove` of the old list; the invariant is kept |
| `Text.Trim` | src/App.tsx:20 | the trimmed text is empty iff the input is all white space; otherwise it neither starts nor ends with white space |
| `Text.TrimDropsOnlySpaces` | src/App.tsx:20 | trimming removes only white space: the result is the input from the end of its white-space prefix, and everything after it is white space |
| `Text.TrimmedIsTrim` | src/App.tsx:43-45 | a string is non-empty with no white space at either end iff it is non-empty and its own trimmed form |
| `Text.TrimIdempotent` | src/App.tsx:43-45 | trimming twice equals trimming once |
| `Text.ToLower` | src/App.tsx:33-34 | the lowered text has the input's length, and each character is the lower-case form of the input's character at that position |
| `Numeric.ParseUnsigned` | src/App.tsx:25 | an unsigned numeral never parses to a negative value |
| `Numeric.ParseDecimal` | src/App.tsx:25 | the decimal numeral of every natural number parses back to that number |
| `Numeric.DecimalIsPositive` | src/App.tsx:25-28 | a whole-number quantity passes the quantity check iff it is not zero |
| `Numeric.ParseNumber` | src/App.tsx:25 | a blank quantity reads as 0; the value can be negative only when the trimmed text starts with a minus sign |
| `Numeric.SignedNumeral` | src/App.tsx:25 | a trimmed string without a sign reads as its unsigned literal; a leading plus sign is skipped; a leading minus sign negates the literal after it, and a non-number stays a non-number |
| `Numeric.QuantityCheckRejects` | src/App.tsx:20-28 | the quantity check rejects a blank field and every field whose trimmed text starts with a minus sign, `"-0"` included |
| `Numeric.Mantissa` | src/App.tsx:25 | the value of a literal's digits is never negative, and without fraction digits it is the integer digits' value |
| `Numeric.Scale` | src/App.tsx:25 | scaling by a power of ten keeps the value non-negative, and scaling down is undone by scaling back up (and the reverse) |
| `Numeric.ParseFraction` | src/App.tsx:25 | a literal with a decimal point reads as the integer digits plus the fraction digits over ten to the number of fraction digits; either side of the point may be empty but not both (`"1.5"`, `".5"`, `"1."`) |
| `Numeric.ParseExponent` | src/App.tsx:25 | digits followed by `e`, an optional minus sign and exponent digits read as the digits' value scaled up or down by that power of ten (`"1e2"`, `"2e-1"`) |
| `Numeric.NotANumeral` | src/App.tsx:25 | a literal that starts with neither a digit nor a point, such as a second sign or a letter (`"+-1"`, `"abc"`), is not a number |
| `Numeric.IncompleteNumeral` | src/App.tsx:25 | a lone point, and digits followed by an exponent marker with no exponent digits (`"."`, `"1e"`), are not numbers |

## Left out

- Rendering, the stylesheet import and the button wiring (src/App.tsx:2, 72-121) are presentation. That includes showing the remaining count only when it is above zero. The three `onChange` handlers are modelled as the `Set…` methods.
- `Date.now()` (src/App.tsx:42) is the caller-supplied `now`. No clock is modelled, so two adds within the same millisecond give equal ids, exactly as in the source.
- React's asynchronous, batched state updates: each handler is one atomic update of the `Store`.
- The Hungarian error texts: they are the three `Error` reasons, with `NoError` for the empty error line.
- Numeric.ParseNumber: models `Number()` for decimal numerals only: a sign, digits with an optional fraction, and an optional exponent. `"Infinity"` and hexadecimal, octal and binary literals give `None`, although JavaScript reads them as numbers (and `"Infinity"` would pass the quantity check). Values are exact reals, so double rounding, overflow to `Infinity` and underflow to `0` are not modelled. For example, `"1e-400"` is rejected by the source, because it underflows to 0, but accepted by the model.
- Text.LowerChar: lowers the ASCII, Latin-1 Supplement and Latin Extended-A letters, which include every Hungarian letter. Other scripts are left unchanged. `İ` (U+0130) is also left unchanged, although JavaScript expands it to two characters.
- Text.IsWhitespace: follows the ECMAScript white-space and line-terminator sets of one Unicode version. Later Unicode additions to the space-separator category are not tracked.
