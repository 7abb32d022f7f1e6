/**
 The four API route handlers. Each takes the request method (`verb`), the request body
 and the current file, and returns the HTTP response together with the
 document it writes back (if any). A method other than the one the route
 accepts gets 405 and nothing is written. None of the handlers validates the
 body: whatever the client sent is stored as it is.
 */
module Handlers {
  import opened Store

  const StatusOk := 200
  const StatusMethodNotAllowed := 405

  /** The JSON body of a response. */
  datatype Body = Message(text: string) | CategoryList(categories: seq<string>)

  datatype Response = Response(status: int, body: Body)

  /** What one request does: the response it gets and the document written
      back to `data.json`, `None` when the file is not touched. */
  datatype Reply = Reply(response: Response, write: Option<Document>)

  /** The answer every route gives to a method it does not accept. */
  const NotAllowed := Reply(Response(StatusMethodNotAllowed, Message("Method not allowed")), None)

  /** `POST /api/save-category` with body `{ category }`. */
  function SaveCategory(verb: string, category: string, file: File): (r: Reply)
    ensures r.write.Some? <==> verb == "POST"
    ensures verb != "POST" ==> r.response.status == StatusMethodNotAllowed
    ensures verb == "POST" ==>
      var before := Load(file);
      var after := r.write.value;
      && r.response.status == StatusOk
      && after.items == before.items
      && |after.categories| == |before.categories| + 1
      && after.categories[..|before.categories|] == before.categories
      && after.categories[|before.categories|] == category
  {
    if verb == "POST" then
      var doc := Load(file);
      Reply(Response(StatusOk, Message("Category saved successfully")),
            Some(doc.(categories := doc.categories + [category])))
    else
      NotAllowed
  }

  /** `POST /api/save-item` with the new item as the body. */
  function SaveItem(verb: string, newItem: Item, file: File): (r: Reply)
    ensures r.write.Some? <==> verb == "POST"
    ensures verb != "POST" ==> r.response.status == StatusMethodNotAllowed
    ensures verb == "POST" ==>
      var before := Load(file);
      var after := r.write.value;
      && r.response.status == StatusOk
      && after.categories == before.categories
      && |after.items| == |before.items| + 1
      && after.items[..|before.items|] == before.items
      && after.items[|before.items|] == newItem
  {
    if verb == "POST" then
      var doc := Load(file);
      Reply(Response(StatusOk, Message("Item saved successfully")),
            Some(doc.(items := doc.items + [newItem])))
    else
      NotAllowed
  }

  /** `POST /api/save-items` with body `{ items }`: the whole item list is
      replaced. The client uses it for delete, increase and decrease. */
  function SaveItems(verb: string, items: seq<Item>, file: File): (r: Reply)
    ensures r.write.Some? <==> verb == "POST"
    ensures verb != "POST" ==> r.response.status == StatusMethodNotAllowed
    ensures verb == "POST" ==>
      && r.response.status == StatusOk
      && r.write.value.items == items
      && r.write.value.categories == Load(file).categories
  {
    if verb == "POST" then
      Reply(Response(StatusOk, Message("Items updated successfully")),
            Some(Load(file).(items := items)))
    else
      NotAllowed
  }

  /** `GET /api/get-categories`. */
  function GetCategories(verb: string, file: File): (r: Reply)
    ensures r.write.None?
    ensures verb == "GET" ==> r.response == Response(StatusOk, CategoryList(Load(file).categories))
    ensures verb != "GET" ==> r.response.status == StatusMethodNotAllowed
  {
    if verb == "GET" then
      Reply(Response(StatusOk, CategoryList(Load(file).categories)), None)
    else
      NotAllowed
  }

  /** Reading the categories never writes: the file stays exactly as it was,
      and in particular a missing file is not created. */
  lemma GetCategoriesIsReadOnly(verb: string, file: File)
    ensures After(file, GetCategories(verb, file).write) == file
    ensures file.None? && verb == "GET" ==>
      GetCategories(verb, file).response.body == CategoryList([])
  {
  }

  /** Saving a category and then listing the categories returns the old list
      with the new name at the end. */
  lemma SaveCategoryThenGet(category: string, file: File)
    ensures var next := After(file, SaveCategory("POST", category, file).write);
      GetCategories("GET", next).response.body == CategoryList(Load(file).categories + [category])
  {
  }

  /** There is no duplicate or emptiness check: saving the same name twice
      stores it twice, whatever it is (the empty string included). */
  lemma SaveCategoryTwice(category: string, file: File)
    ensures var once := After(file, SaveCategory("POST", category, file).write);
      var twice := After(once, SaveCategory("POST", category, once).write);
      && Load(twice).categories == Load(file).categories + [category, category]
      && multiset(Load(twice).categories)[category] == multiset(Load(file).categories)[category] + 2
  {
  }

  /** With no file, saving a category creates a document holding just it. */
  lemma SaveCategoryOnMissingFile(category: string)
    ensures SaveCategory("POST", category, None).write == Some(Document([], [category]))
  {
  }

  /** With no file, saving an item creates a document holding just it. */
  lemma SaveItemOnMissingFile(newItem: Item)
    ensures SaveItem("POST", newItem, None).write == Some(Document([newItem], []))
  {
  }

  /** The item is stored verbatim: the handler accepts a negative quantity as
      readily as any other. */
  lemma SaveItemAcceptsAnyQuantity(newItem: Item, file: File)
    ensures var r := SaveItem("POST", newItem, file);
      r.response.status == StatusOk && newItem in r.write.value.items
  {
  }

  /** Replacing the item list is idempotent: a second identical request
      writes the document the first one wrote. */
  lemma SaveItemsIdempotent(items: seq<Item>, file: File)
    ensures var once := After(file, SaveItems("POST", items, file).write);
      SaveItems("POST", items, once).write == once
  {
  }

  /** Replacing with `[]` empties the item list whatever it held; with no
      file the categories come out empty too. */
  lemma SaveItemsEmpty(file: File)
    ensures Load(After(file, SaveItems("POST", [], file).write)).items == []
    ensures file.None? ==> SaveItems("POST", [], file).write == Some(EmptyDocument)
  {
  }

  /** The first-use scenario: on a missing file, saving the category
      "Electronics" and then the item "Laptop" leaves exactly that category and
      that item. */
  lemma FirstUseScenario()
    ensures var laptop := Item("Laptop", 3, "Shelf A", "Electronics");
      var f1 := After(None, SaveCategory("POST", "Electronics", None).write);
      var f2 := After(f1, SaveItem("POST", laptop, f1).write);
      && Load(f2).items == [laptop]
      && GetCategories("GET", f2).response.body == CategoryList(["Electronics"])
  {
  }
}
