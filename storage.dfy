/** The browser's `localStorage`: string keys mapped to string values. */
module Storage {
  import opened Wrappers

  class LocalStorage {
    var items: map<string, string>

    constructor (initial: map<string, string>)
      ensures items == initial
    {
      items := initial;
    }

    /** `localStorage.getItem(key)`; `None` is `null`. */
    function GetItem(key: string): (r: Option<string>)
      reads this
      ensures r.Some? <==> key in items
      ensures r.Some? ==> r.value == items[key]
    {
      if key in items then Some(items[key]) else None
    }

    /** `localStorage.setItem(key, value)`. */
    method SetItem(key: string, value: string)
      modifies this
      ensures items == old(items)[key := value]
    {
      items := items[key := value];
    }
  }
}
