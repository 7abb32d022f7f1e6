/**
 The inventory page as far as it decides what is sent to the server: the
 guards in front of "add item" and "add category", the category filter, and
 the three row buttons (increase, decrease, delete).

 The row buttons are drawn from the filtered list, so the index a button
 passes is a position in the filtered list; the handlers apply it to the
 full list. With a category filter active the two differ, and the button can
 change or delete an item other than the one on its row. `PressDelete`,
 `PressIncrease` and `PressDecrease` model the page as it behaves; the
 `...Intended` versions translate the row to its position first.
 */
module Page {
  import opened Store
  import opened Handlers
  import opened ItemList

  // ---------------------------------------------------------------------------
  // Adding an item: the form guard and the save-item request
  // ---------------------------------------------------------------------------

  /** The four form fields as the page holds them; the quantity is still the
      text of the number input. */
  datatype ItemForm = ItemForm(itemName: string, quantity: string, location: string, category: string)

  const ClearedForm := ItemForm("", "", "", "")

  /** Every field holds something: an empty string is falsy and fails the check. */
  predicate AllFilled(form: ItemForm)
  {
    form.itemName != "" && form.quantity != "" && form.location != "" && form.category != ""
  }

  /** The item the submit handler posts, or `None` when it stops at the
      "fill in all fields" alert. `toNumber` is the text-to-number conversion
      the page applies to the quantity. */
  function SubmitRequest(form: ItemForm, toNumber: string -> int): (r: Option<Item>)
    ensures r.None? <==>
      form.itemName == "" || form.quantity == "" || form.location == "" || form.category == ""
    ensures r.Some? ==>
      && r.value.itemName == form.itemName
      && r.value.location == form.location
      && r.value.category == form.category
      && r.value.quantity == toNumber(form.quantity)
  {
    if !AllFilled(form) then None
    else Some(Item(form.itemName, toNumber(form.quantity), form.location, form.category))
  }

  /** The form after submitting and the file after the request (if one was
      sent). A saved item clears the form. */
  datatype Submitted = Submitted(form: ItemForm, file: File)

  /** One press of the submit button. */
  function Submit(form: ItemForm, toNumber: string -> int, file: File): (r: Submitted)
    ensures !AllFilled(form) ==> r == Submitted(form, file)
    ensures AllFilled(form) ==>
      && r.form == ClearedForm
      && Load(r.file).categories == Load(file).categories
      && Load(r.file).items == Load(file).items + [SubmitRequest(form, toNumber).value]
  {
    match SubmitRequest(form, toNumber)
    case None => Submitted(form, file)
    case Some(item) =>
      var reply := SaveItem("POST", item, file);
      var next := After(file, reply.write);
      if reply.response.status == StatusOk then Submitted(ClearedForm, next)
      else Submitted(form, next)
  }

  /** After a submit has completed, pressing again posts nothing: the
      cleared form fails the guard, so a completed press stores at most one
      item. */
  lemma SubmitTwiceStoresOnce(form: ItemForm, toNumber: string -> int, file: File)
    ensures var once := Submit(form, toNumber, file);
      var twice := Submit(once.form, toNumber, once.file);
      && twice.file == once.file
      && |Load(twice.file).items| <= |Load(file).items| + 1
  {
  }

  // ---------------------------------------------------------------------------
  // Adding a category: the prompt guard
  // ---------------------------------------------------------------------------

  /** The category the page posts for a prompt answer (`None` when the prompt
      was cancelled), or `None` when it posts nothing. */
  function NewCategoryRequest(answer: Option<string>): (r: Option<string>)
    ensures r.Some? <==> answer.Some? && answer.value != ""
    ensures r.Some? ==> r.value == answer.value
  {
    match answer
    case None => None
    case Some(name) => if name == "" then None else Some(name)
  }

  /** The categories the page shows and the file, after one "add category". */
  datatype CategoryState = CategoryState(shown: seq<string>, file: File)

  function AddCategory(answer: Option<string>, state: CategoryState): (r: CategoryState)
    ensures NewCategoryRequest(answer).None? ==> r == state
    ensures NewCategoryRequest(answer).Some? ==>
      var name := answer.value;
      && r.shown == state.shown + [name]
      && Load(r.file).categories == Load(state.file).categories + [name]
      && Load(r.file).items == Load(state.file).items
  {
    match NewCategoryRequest(answer)
    case None => state
    case Some(name) =>
      var reply := SaveCategory("POST", name, state.file);
      CategoryState(state.shown + [name], After(state.file, reply.write))
  }

  /** The page appends to its own list exactly what the server appends, so a
      page that showed the stored categories still shows them afterwards. */
  lemma AddCategoryKeepsPageInSync(answer: Option<string>, state: CategoryState)
    requires state.shown == Load(state.file).categories
    ensures AddCategory(answer, state).shown == Load(AddCategory(answer, state).file).categories
  {
  }

  // ---------------------------------------------------------------------------
  // The item list on screen
  // ---------------------------------------------------------------------------

  /** The page's item state: the full list and the category filter, if one
      was clicked since the list last changed. */
  datatype Screen = Screen(items: seq<Item>, filter: Option<string>)

  /** The rows on screen, one button triple per row. */
  function Rows(s: Screen): (rows: seq<Item>)
    ensures |rows| <= |s.items|
    ensures s.filter.None? ==> rows == s.items
    ensures s.filter.Some? ==> forall x :: x in rows ==> x.category == s.filter.value
  {
    match s.filter
    case None => s.items
    case Some(c) => FilterCategory(s.items, c)
  }

  /** Clicking a category shows its items and only them. */
  function ClickCategory(s: Screen, category: string): (r: Screen)
    ensures r.items == s.items
    ensures r.filter == Some(category)
    ensures forall x :: x in Rows(r) ==> x.category == category
    ensures forall j :: 0 <= j < |s.items| && s.items[j].category == category ==> s.items[j] in Rows(r)
  {
    FilterKeepsMatches(s.items, category);
    Screen(s.items, Some(category))
  }

  /** The position in the full list of the item drawn on row `row`. */
  function RowPosition(s: Screen, row: int): (p: int)
    requires 0 <= row < |Rows(s)|
    ensures InRange(s.items, p) && s.items[p] == Rows(s)[row]
    ensures s.filter.None? ==> p == row
  {
    match s.filter
    case None => row
    case Some(c) =>
      FilterAtPositions(s.items, c);
      MatchPositions(s.items, c)[row]
  }

  /** With a filter on, exactly `row` items of the category come before the
      position of row `row`: it is the copy drawn on that row even when equal
      items repeat. */
  lemma RowPositionCountsMatches(s: Screen, row: int)
    requires s.filter.Some? && 0 <= row < |Rows(s)|
    ensures |FilterCategory(s.items[..RowPosition(s, row)], s.filter.value)| == row
  {
    FilterAtPositions(s.items, s.filter.value);
    MatchesBefore(s.items, s.filter.value, row);
  }

  // ---------------------------------------------------------------------------
  // Row buttons, as the page behaves: the row number used as a list position
  // ---------------------------------------------------------------------------

  /** Delete on row `row`: removes the item at position `row` of the full list,
      and the page shows the whole list again. */
  function PressDelete(s: Screen, row: int): (r: Screen)
    requires 0 <= row < |Rows(s)|
    ensures r.filter.None?
    ensures |r.items| == |s.items| - 1
    ensures r.items == s.items[..row] + s.items[row + 1..]
    ensures multiset(r.items) + multiset{s.items[row]} == multiset(s.items)
  {
    DeleteRemovesOne(s.items, row);
    Screen(DeleteItem(s.items, row), None)
  }

  /** Increase on row `row`: increments the item at position `row` of the full list. */
  function PressIncrease(s: Screen, row: int): (r: Screen)
    requires 0 <= row < |Rows(s)|
    ensures r.filter.None?
    ensures r.items == s.items[row := Incremented(s.items[row])]
    ensures Total(r.items) == Total(s.items) + 1
  {
    TransformsChangeTotal(s.items, row);
    Screen(IncreaseAt(s.items, row), None)
  }

  /** Decrease on row `row`: decrements the item at position `row` of the full
      list, if its quantity is above zero. */
  function PressDecrease(s: Screen, row: int): (r: Screen)
    requires 0 <= row < |Rows(s)|
    ensures r.filter.None?
    ensures s.items[row].quantity > 0 ==> r.items == s.items[row := Decremented(s.items[row])]
    ensures s.items[row].quantity <= 0 ==> r.items == s.items
  {
    Screen(DecreaseAt(s.items, row), None)
  }

  /** With no filter the rows are the list, so each button acts on its own row. */
  lemma UnfilteredButtonsHitTheirRow(s: Screen, row: int)
    requires s.filter.None? && 0 <= row < |Rows(s)|
    ensures PressDelete(s, row) == PressDeleteIntended(s, row)
    ensures PressIncrease(s, row) == PressIncreaseIntended(s, row)
    ensures PressDecrease(s, row) == PressDecreaseIntended(s, row)
  {
  }

  /** The witness screen: an "Office" chair at position 0 and five "Tools"
      hammers at position 1, with the "Tools" filter on. Its only row is the
      hammers, at position 1 of the full list. */
  function MismatchScreen(): (s: Screen)
    ensures |s.items| == 2 && Rows(s) == [s.items[1]]
  {
    var chair := Item("Chair", 0, "Room 1", "Office");
    var hammer := Item("Hammer", 5, "Shelf B", "Tools");
    var s := Screen([chair, hammer], Some("Tools"));
    assert FilterCategory([chair], "Tools") == [];
    assert [chair, hammer][..1] == [chair];
    s
  }

  /** Delete on the hammer row removes the chair and keeps the hammers on the
      list: the row pressed is not the item deleted. */
  lemma PressDeleteWrongItem()
    ensures var s := MismatchScreen();
      && PressDelete(s, 0).items == [s.items[1]]
      && multiset(PressDelete(s, 0).items) + multiset{Rows(s)[0]} != multiset(s.items)
  {
  }

  /** Increase on the hammer row adds one chair; the hammer count stays at five. */
  lemma PressIncreaseWrongItem()
    ensures var s := MismatchScreen();
      && PressIncrease(s, 0).items == [Incremented(s.items[0]), s.items[1]]
      && PressIncrease(s, 0).items[1].quantity == Rows(s)[0].quantity
  {
  }

  /** Decrease on the hammer row hits the chair, already at zero, so nothing
      changes although the row shows five hammers. */
  lemma PressDecreaseWrongItem()
    ensures var s := MismatchScreen();
      && Rows(s)[0].quantity == 5
      && PressDecrease(s, 0).items == s.items
  {
  }

  // ---------------------------------------------------------------------------
  // Row buttons, corrected: the row translated to its list position first
  // ---------------------------------------------------------------------------

  /** Delete on row `row` removes exactly one copy of the item drawn on that
      row and nothing else. */
  function PressDeleteIntended(s: Screen, row: int): (r: Screen)
    requires 0 <= row < |Rows(s)|
    ensures r.filter.None?
    ensures |r.items| == |s.items| - 1
    ensures var p := RowPosition(s, row); r.items == s.items[..p] + s.items[p + 1..]
    ensures multiset(r.items) + multiset{Rows(s)[row]} == multiset(s.items)
    ensures Total(r.items) == Total(s.items) - Rows(s)[row].quantity
  {
    var p := RowPosition(s, row);
    TransformsChangeTotal(s.items, p);
    DeleteRemovesOne(s.items, p);
    Screen(DeleteItem(s.items, p), None)
  }

  /** Increase on row `row` replaces exactly the item drawn on that row by a
      copy with one more. */
  function PressIncreaseIntended(s: Screen, row: int): (r: Screen)
    requires 0 <= row < |Rows(s)|
    ensures r.filter.None?
    ensures |r.items| == |s.items|
    ensures var p := RowPosition(s, row); r.items == s.items[p := Incremented(s.items[p])]
    ensures multiset(r.items) + multiset{Rows(s)[row]} == multiset(s.items) + multiset{Incremented(Rows(s)[row])}
    ensures Total(r.items) == Total(s.items) + 1
  {
    var p := RowPosition(s, row);
    TransformsChangeTotal(s.items, p);
    Screen(IncreaseAt(s.items, p), None)
  }

  /** Decrease on row `row` replaces exactly the item drawn on that row by a
      copy with one fewer, unless that item is already at zero. */
  function PressDecreaseIntended(s: Screen, row: int): (r: Screen)
    requires 0 <= row < |Rows(s)|
    ensures r.filter.None?
    ensures Rows(s)[row].quantity > 0 ==>
      var p := RowPosition(s, row); r.items == s.items[p := Decremented(s.items[p])]
    ensures Rows(s)[row].quantity > 0 ==>
      multiset(r.items) + multiset{Rows(s)[row]} == multiset(s.items) + multiset{Decremented(Rows(s)[row])}
    ensures Rows(s)[row].quantity <= 0 ==> r.items == s.items
  {
    var p := RowPosition(s, row);
    Screen(DecreaseAt(s.items, p), None)
  }

  /** A button press followed by the save-items request it sends: the stored
      list is the pressed list and the categories are kept. */
  lemma PressThenSave(s: Screen, row: int, file: File)
    requires 0 <= row < |Rows(s)| && Load(file).items == s.items
    ensures var next := After(file, SaveItems("POST", PressDeleteIntended(s, row).items, file).write);
      && Load(next).categories == Load(file).categories
      && Total(Load(next).items) == Total(Load(file).items) - Rows(s)[row].quantity
  {
  }
}
