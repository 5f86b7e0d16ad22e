/** The dynamically typed values the source stores in its `Dict[str, Any]`
    detail and reason maps, and the mutable dictionary object itself. */
module Values {

  datatype Value =
    | Int(i: int)
    | Str(s: string)
    | Bool(b: bool)
    /** A nested dictionary literal from category names to counts. */
    | Counts(counts: map<string, int>)
    /** A reference to a mutable dictionary: the holder sees later updates to it. */
    | DictRef(dict: Dict)

  /** A Python `dict` that is updated in place. */
  class Dict {
    var entries: map<string, Value>

    constructor (entries: map<string, Value>)
      ensures this.entries == entries
    {
      this.entries := entries;
    }

    /** `d[key] = value`. */
    method Put(key: string, value: Value)
      modifies this
      ensures entries == old(entries)[key := value]
    {
      entries := entries[key := value];
    }
  }
}
