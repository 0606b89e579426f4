/**
 * The ordered, append-only store of entries (`ListOfEntries`, whose contract is
 * pinned down by src/test/model/ListOfEntriesTest.java) and the vault `File`
 * that the reader fills: a name plus such a store.
 */
module EntryCollections {
  import opened Wrappers
  import opened EntryModel

  /** The IndexOutOfBoundsException of `ArrayList.get`. */
  datatype IndexError = IndexOutOfBounds(index: int)

  class ListOfEntries {
    /** The stored entries, in insertion order. */
    var entries: seq<Entry>

    /** `new ListOfEntries()`: an empty store. */
    constructor ()
      ensures entries == []
    {
      entries := [];
    }

    /** `new ListOfEntries(list)`: a store holding the given entries in the given order. */
    constructor FromList(list: seq<Entry>)
      ensures entries == list
    {
      entries := list;
    }

    /** `addEntry(e)`: appends `e`; the entries already stored keep their indices. */
    method AddEntry(e: Entry)
      modifies this
      ensures entries == old(entries) + [e]
      ensures |entries| == |old(entries)| + 1 && entries[|entries| - 1] == e
      ensures forall i :: 0 <= i < |old(entries)| ==> entries[i] == old(entries)[i]
    {
      entries := entries + [e];
    }

    /** `getSizeOfEntries()`: the number of stored entries. */
    method GetSizeOfEntries() returns (size: int)
      ensures size == |entries|
    {
      size := |entries|;
    }

    /**
     * `getEntryAtIndex(index)`: the entry at `index`, or the out-of-bounds error
     * when `index` is not a position of the store.
     */
    method GetEntryAtIndex(index: int) returns (r: Result<Entry, IndexError>)
      ensures r.Success? <==> 0 <= index < |entries|
      ensures r.Success? ==> r.value == entries[index]
      ensures r.Failure? ==> r.error == IndexOutOfBounds(index)
    {
      if 0 <= index < |entries| {
        r := Success(entries[index]);
      } else {
        r := Failure(IndexOutOfBounds(index));
      }
    }

    /** `getEntries()`: the stored entries, in order. */
    method GetEntries() returns (list: seq<Entry>)
      ensures |list| == |entries|
      ensures forall i :: 0 <= i < |list| ==> list[i] == entries[i]
    {
      list := entries;
    }
  }

  /** A named vault: `new File(name)` starts with no entries; `addEntry` appends. */
  class File {
    const name: string
    const list: ListOfEntries

    constructor (name: string)
      ensures this.name == name && fresh(list) && list.entries == []
    {
      this.name := name;
      list := new ListOfEntries();
    }

    method AddEntry(e: Entry)
      modifies list
      ensures list.entries == old(list.entries) + [e]
    {
      list.AddEntry(e);
    }
  }
}
