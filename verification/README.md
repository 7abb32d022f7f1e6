# Inventory tracker: a Dafny model

This project models the core of a single-user inventory tracker. The app is a
Next.js page plus four API routes. All state lives in one JSON file,
`data.json`, of shape `{ items: Item[], categories: string[] }`. An `Item` is
`{ itemName, quantity, location, category }` and has no identifier: an item is
addressed by its position in `items`.

Each API route reads the whole file, or `{ items: [], categories: [] }` when the
file is absent. It changes an in-memory copy and writes the whole file back:

- `save-category` appends one category;
- `save-item` appends the request body as one item;
- `save-items` replaces the item list wholesale;
- `get-categories` returns the categories and writes nothing.

Any other HTTP method gets 405 and nothing is written.

The page decides what gets sent. The row buttons compute a new full item
list and post it to `save-items`: delete is a filter on the index, increase is
a map adding 1, and decrease is a map subtracting 1, floored at zero. The
category buttons filter the list on screen. The total tile sums the
quantities. Submitting a new item and adding a category are guarded by
emptiness checks.

Modules, one per part of the program:

- `Store` (store.dfy): `Item`, `Document`, the file as `Option<Document>`
  (`None` means the file does not exist), `Load` (absent reads as empty) and
  `After` (the file after a handler wrote, or did not write).
- `Handlers` (handlers.dfy): the four routes. Each returns a `Reply`: the
  response (status and JSON body) plus the document written back, if any.
- `ItemList` (itemlist.dfy): the page's list transforms, the total and the
  category filter, all over positions in the full list.
- `Page` (page.dfy): the submit and add-category guards, and the screen (list
  plus active category filter). It also holds the row buttons both as the page
  behaves and corrected (see Findings).

The HTTP method is a string compared exactly, as the source's `===` does:
`"post"` is not `"POST"`. The text-to-number conversion of the quantity field
is a parameter `toNumber: string -> int`.

The handlers validate nothing. Only the page refuses an empty category name
or an empty form field. A negative quantity is stored as sent, and so is a
duplicate or empty category name.

## Model

| member | source | states |
|---|---|---|
| Store.Load | pages/api/save-category.ts:10 | an absent file reads as the document with no items and no categories; a present one as itself |
| Handlers.SaveCategory | pages/api/save-category.ts:6-16 | a write happens exactly for POST; POST answers 200, keeps `items`, and the new `categories` is the old list, in order, with one more entry at the end: the given name; any other method answers 405 |
| Handlers.SaveItem | pages/api/save-item.ts:5-15 | a write happens exactly for POST; POST answers 200, keeps `categories`, and the new `items` is the old list, in order, with the body appended at the end; any other method answers 405 |
| Handlers.SaveItems | pages/api/save-items.ts:6-16 | a write happens exactly for POST; POST answers 200, the stored items are exactly the supplied ones whatever was there before, and `categories` is kept; any other method answers 405 |
| Handlers.GetCategories | pages/api/get-categories.ts:6-13 | never writes; GET answers 200 with the stored categories verbatim (order and duplicates kept); any other method answers 405 |
| Handlers.GetCategoriesIsReadOnly | pages/api/get-categories.ts:7-10 | after a get-categories request the file is exactly as before (a missing file is not created), and on a missing file GET lists nothing |
| Handlers.SaveCategoryThenGet | pages/api/save-category.ts:10-11 | after saving category c, get-categories lists the earlier categories followed by c |
| Handlers.SaveCategoryTwice | pages/api/save-category.ts:8-11 | saving the same name twice stores it twice (no duplicate or emptiness check): its count rises by exactly 2 |
| Handlers.SaveCategoryOnMissingFile | pages/api/save-category.ts:10-11 | with no file, saving c writes `{items: [], categories: [c]}` |
| Handlers.SaveItemOnMissingFile | pages/api/save-item.ts:9-10 | with no file, saving an item writes `{items: [item], categories: []}` |
| Handlers.SaveItemAcceptsAnyQuantity | pages/api/save-item.ts:7-10 | any body is stored and answered 200, a negative quantity included |
| Handlers.SaveItemsIdempotent | pages/api/save-items.ts:11 | repeating the same save-items request writes the same document again |
| Handlers.SaveItemsEmpty | pages/api/save-items.ts:10-11 | replacing with `[]` leaves no items whatever was stored; with no file the result is the empty document |
| Handlers.FirstUseScenario | pages/api/save-item.ts:9-10 | from no file, saving category "Electronics" then item "Laptop" leaves exactly that item and lists exactly that category |
| ItemList.KeepOthers | app/page.tsx:89 | the index filter over a list slice starting at position `pos` drops exactly the element at `index` when it falls in the slice, and keeps the slice otherwise |
| ItemList.DeleteItem | app/page.tsx:89 | delete at an in-range index gives the items before it followed by the items after it, one shorter; an out-of-range index changes nothing |
| ItemList.DeleteRemovesOne | app/page.tsx:89 | delete removes one copy of the item at the index and keeps every other item, duplicates included |
| ItemList.IncreaseAt | app/page.tsx:102 | increase keeps the length; at an in-range index only that item changes, and only its quantity, by +1; out of range nothing changes |
| ItemList.DecreaseAt | app/page.tsx:115 | decrease keeps the length; if the item's quantity is above zero only that quantity drops by exactly 1, otherwise the list is unchanged |
| ItemList.IncreaseThenDecrease | app/page.tsx:102-115 | decrease undoes increase on the same index whenever the quantity was not negative |
| ItemList.DecreaseThenIncrease | app/page.tsx:102-115 | increase undoes decrease on the same index if and only if the quantity was above zero (the floor loses the undo at zero) |
| ItemList.TransformsKeepNonNegative | app/page.tsx:89-115 | if no quantity is negative before a delete, increase or decrease, none is after it |
| ItemList.SumQuantities | app/page.tsx:172 | the accumulator loop of the reduce computes the sum of quantities, defined as a left fold |
| ItemList.TotalConcat | app/page.tsx:172 | the total of two lists joined is the sum of their totals |
| ItemList.TotalReplace | app/page.tsx:172 | replacing one item changes the total by the difference of the two quantities |
| ItemList.TotalNonNegative | app/page.tsx:172 | the total of a list with no negative quantity is not negative |
| ItemList.TransformsChangeTotal | app/page.tsx:89-115 | at an in-range index, increase raises the total by 1, decrease lowers it by 1 (or by 0 at the floor), and delete lowers it by the deleted item's quantity |
| ItemList.FilterCategory | app/page.tsx:81-86 | the filtered list is no longer than the list and holds only items of the category |
| ItemList.FilterCounts | app/page.tsx:83 | the filtered list holds each item of the category exactly as many times as the list does, and no other item |
| ItemList.MatchPositions | app/page.tsx:83 | the matching positions are in range of the list and strictly increasing |
| ItemList.MatchPositionsExact | app/page.tsx:83 | a position is among the matching positions exactly when its item has the category |
| ItemList.DeleteLowersTotal | app/page.tsx:89 | delete at an in-range index lowers the total by the deleted item's quantity |
| ItemList.FilterAtPositions | app/page.tsx:83 | the k-th filtered item is the item at the k-th matching position: the filter is an order-preserving subsequence |
| ItemList.MatchesBefore | app/page.tsx:83 | exactly k items of the category come before the k-th matching position |
| ItemList.FilterKeepsMatches | app/page.tsx:83 | every item of the category appears in the filtered list |
| ItemList.FilterAllMatching | app/page.tsx:83 | when every item has the category, the filter returns the whole list in order |
| Page.SubmitRequest | app/page.tsx:53-59 | no item is posted exactly when one of name, quantity, location or category is empty; otherwise the posted item carries the form's fields and the converted quantity |
| Page.Submit | app/page.tsx:53-78 | a rejected submit changes neither the form nor the file; an accepted one clears the form, keeps the categories and appends the item to the stored list |
| Page.SubmitTwiceStoresOnce | app/page.tsx:67-71 | after a submit has completed, pressing again posts nothing, because the cleared form fails the guard; so a completed press stores at most one item |
| Page.NewCategoryRequest | app/page.tsx:39-41 | a category is posted exactly when the prompt returned a non-empty name, and it is that name |
| Page.AddCategory | app/page.tsx:39-51 | a cancelled or empty prompt changes neither the page list nor the file; otherwise both the page list and the stored categories gain the name at the end, and the items are kept |
| Page.AddCategoryKeepsPageInSync | app/page.tsx:41-49 | if the page showed the stored categories before adding one, it still shows them after |
| Page.Rows | app/page.tsx:258 | the rows are the whole list with no filter, and only items of the category with one |
| Page.ClickCategory | app/page.tsx:81-86 | clicking a category keeps the list, sets that category as the filter, and shows every item of that category and no other item |
| Page.RowPosition | app/page.tsx:258 | every row has a position in the full list whose item is the item drawn on the row; with no filter it is the row number |
| Page.RowPositionCountsMatches | app/page.tsx:258 | with a filter on, exactly `row` items of the category come before the position of row `row`, so it is the copy drawn on that row even when equal items repeat |
| Page.PressDelete | app/page.tsx:88-91 | as written: delete on row r gives the full list without its position r, in order, and resets the filter |
| Page.PressIncrease | app/page.tsx:101-104 | as written: increase on row r increments the item at position r of the full list, so the total rises by 1 |
| Page.PressDecrease | app/page.tsx:114-117 | as written: decrease on row r decrements the item at position r of the full list if it is above zero, else changes nothing |
| Page.UnfilteredButtonsHitTheirRow | app/page.tsx:258-296 | with no category filter active, each as-written button equals its corrected version |
| Page.PressDeleteWrongItem | app/page.tsx:296 | with the filter on, delete on the only row removes another item and leaves the shown item in the list |
| Page.PressIncreaseWrongItem | app/page.tsx:280 | with the filter on, increase on the only row increments another item and leaves the shown quantity as it was |
| Page.PressDecreaseWrongItem | app/page.tsx:288 | with the filter on, decrease on a row showing 5 changes nothing, because it hits an item at zero |
| Page.PressDeleteIntended | app/page.tsx:296 | corrected: delete on a row gives the full list without the position of the item drawn on it, in order; so it removes one copy of that item and nothing else, and the total drops by its quantity |
| Page.PressIncreaseIntended | app/page.tsx:280 | corrected: increase on a row replaces, in place, the item at the position drawn on it by a copy with one more; every other position is unchanged and the total rises by 1 |
| Page.PressDecreaseIntended | app/page.tsx:288 | corrected: decrease on a row replaces, in place, the item at the position drawn on it by a copy with one fewer, every other position unchanged; if that item is at zero nothing changes |
| Page.PressThenSave | app/page.tsx:92-98 | posting a corrected delete to save-items keeps the stored categories and lowers the stored total by the deleted row's quantity |

## Left out

- File I/O: reading, writing and checking for `data.json` are a `File` value passed in and a `write` value passed out. Path building is not modelled.
- JSON parsing and printing: the document is already parsed. Failure on a malformed file and the 2-space pretty-printing are not modelled.
- React state, hooks, `fetch`, `alert`/`prompt`, loading flags and all rendering (app/page.tsx:140-314) are left out. Only what decides the requests and the rows is modelled.
- The spreadsheet export (app/page.tsx:127-138) is left out. It is a thin wrapper over the `xlsx` library.
- `Number(quantity)`: JavaScript's text-to-number conversion (NaN, fractions, exponents) is the parameter `toNumber`. Quantities are `int`, not floating point.
- The `/api/get-items` route that the page calls is not part of this model. Its source is not available.
- Concurrency: each handler is one atomic function. Two interleaved read-modify-write requests can lose an update (last writer wins), and that is not modelled.
- Handlers.SaveCategory: the body's `category` is a string. A body without the field, which would push `undefined` (written as `null`), is not modelled.
- Handlers.SaveItems: the body's `items` is a list of `Item`. A body without the field is not modelled. It would set `items` to `undefined`, the written file would then have no `items` key, and the next save-item would fail when it appends to the list.
- Handlers.SaveItem: the body is an `Item`. Extra or missing JSON fields, which the route would store verbatim, are not modelled.
- Page.SubmitTwiceStoresOnce: a press is modelled as completing before the next one. The page does not disable the button while the save-item request is pending, and the form is cleared only after the response. So a second press during that time posts the same item again and stores it twice. That case is not modelled.
- Page.Submit: the `response.ok` branch assumes the request reached the handler. A network or server failure, which leaves the form filled, is not modelled.
- The `if (items)` guard of the category click (app/page.tsx:82) always holds for a list, so it is not modelled.

## Findings

| source | as written | input that shows it | evidently intended | confidence | as-written member | corrected member |
|---|---|---|---|---|---|---|
| app/page.tsx:296 | delete passes the row number of the filtered list, and the handler removes that position of the full list (app/page.tsx:89) | items `[Chair (Office, 0), Hammer (Tools, 5)]`, filter "Tools", delete on row 0 | remove the Hammer shown on the row | high, not executed | Page.PressDeleteWrongItem | Page.PressDeleteIntended |
| app/page.tsx:280 | increase passes the filtered row number, and the handler increments that position of the full list (app/page.tsx:102) | the same list and filter, increase on row 0 | Hammer becomes 6; Chair stays at 0 | high, not executed | Page.PressIncreaseWrongItem | Page.PressIncreaseIntended |
| app/page.tsx:288 | decrease passes the filtered row number, and the handler decrements that position of the full list (app/page.tsx:115) | the same list and filter, decrease on row 0 | Hammer becomes 4; instead nothing changes, since Chair is at 0 | high, not executed | Page.PressDecreaseWrongItem | Page.PressDecreaseIntended |
