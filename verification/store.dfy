/**
 The persisted inventory: a single JSON document, `data.json`, holding every
 item and every category. Each API handler reads the whole document (or the
 empty default when the file is absent), changes an in-memory copy and writes
 the whole document back. Here the file is a value: it is passed in and the
 document to write is passed out.
 */
module Store {

  /** Present or absent; `None` stands for a missing file or a missing value. */
  datatype Option<T> = None | Some(value: T)

  /** One inventory row. It has no identifier: an item is addressed by its
      position in `Document.items`. */
  datatype Item = Item(itemName: string, quantity: int, location: string, category: string)

  /** The whole persisted state. Categories are free text: duplicates are
      allowed and an item's `category` need not occur in `categories`. */
  datatype Document = Document(items: seq<Item>, categories: seq<string>)

  /** `data.json` as a handler finds it: `None` when the file does not exist. */
  type File = Option<Document>

  /** The document a handler works on when the file does not exist. */
  const EmptyDocument := Document([], [])

  /** The document a handler reads: the parsed file, or the empty document
      when there is no file. */
  function Load(file: File): (d: Document)
    ensures file.Some? ==> d == file.value
    ensures file.None? ==> d.items == [] && d.categories == []
  {
    match file
    case None => EmptyDocument
    case Some(doc) => doc
  }

  /** The file after a handler ran: replaced in full by what the handler
      wrote, or left exactly as it was (possibly still absent) when it wrote
      nothing. */
  function After(file: File, write: Option<Document>): (next: File)
    ensures write.Some? ==> next == write
    ensures write.None? ==> next == file
  {
    match write
    case None => file
    case Some(_) => write
  }
}
