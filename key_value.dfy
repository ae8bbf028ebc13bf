/** The browser's `localStorage`: a map from string keys to stored text. The text is kept
    as the JSON value it encodes, so that what `JSON.stringify` writes is what `JSON.parse`
    reads back. */
module KeyValue {
  import opened Wrappers
  import opened Entities

  /** What a key can hold: the empty string, or the text of one of the values the stores write. */
  datatype Document<P> =
    | EmptyText                        // ""
    | StateDoc(data: StorageData<P>)   // JSON.stringify({ nextId, items })
    | NumberText(n: int)               // n.toString()
    | ListDoc(items: seq<Entity<P>>)   // JSON.stringify(list)

  /** JavaScript truthiness of `localStorage.getItem(key)`: null and "" are falsy. */
  predicate Truthy<P>(stored: Option<Document<P>>) {
    stored.Some? && !stored.value.EmptyText?
  }

  class LocalStorage<P> {
    var entries: map<string, Document<P>>

    constructor (initial: map<string, Document<P>>)
      ensures entries == initial
    {
      entries := initial;
    }

    /** `localStorage.getItem(key)`: the stored text, or null. */
    function GetItem(key: string): (r: Option<Document<P>>)
      reads this
      ensures r.Some? <==> key in entries
      ensures r.Some? ==> r.value == entries[key]
    {
      if key in entries then Some(entries[key]) else None
    }

    /** `localStorage.setItem(key, value)`: replaces what `key` holds and nothing else. */
    method SetItem(key: string, value: Document<P>)
      modifies this
      ensures entries == old(entries)[key := value]
    {
      entries := entries[key := value];
    }
  }
}
