/** The browser's persistent key/value storage (window.localStorage). */
module BrowserStorage {
  import opened JsonValues

  class Storage {
    var items: map<string, Text>

    constructor (items: map<string, Text>)
      ensures this.items == items
    {
      this.items := items;
    }

    /** setItem: `accepted` is whether the browser takes the write; when it
        does not (quota exceeded, storage disabled) setItem throws and the
        storage is left as it was. */
    method SetItem(key: string, value: Text, accepted: bool) returns (stored: bool)
      modifies this
      ensures stored == accepted
      ensures items == if accepted then old(items)[key := value] else old(items)
    {
      stored := accepted;
      if accepted {
        items := items[key := value];
      }
    }
  }
}
