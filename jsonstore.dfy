/** The legacy list store of pkg/jsonstore/jsonstore.go: a package-level list
    of items addressed by 1-based position, loaded from and saved to the
    backing file by explicit calls. main.go carries a copy of the list and
    functions that behaves the same; LegacyCli reuses this model for it. */
module JsonStore {
  import opened Io

  /** A legacy item has no id: its position in the list identifies it. */
  datatype Item = Item(name: string, desc: string, status: string)

  type Items = seq<Item>

  type State = Snapshot<Items>

  datatype ListError = InvalidId(id: int) | LoadFailed(load: LoadStep) | SaveFailed(save: SaveStep)

  /** The list with the element at 0-based index `i` cut out. */
  function Without(s: Items, i: nat): (r: Items)
    requires i < |s|
    ensures |r| == |s| - 1
    ensures forall j :: 0 <= j < i ==> r[j] == s[j]
    ensures forall j :: i <= j < |r| ==> r[j] == s[j + 1]
    ensures multiset(r) + multiset{s[i]} == multiset(s)
  {
    assert s == s[..i] + [s[i]] + s[i + 1..];
    s[..i] + s[i + 1..]
  }

  /** What `LoadItems` does to the list and the file. Decoding replaces the
      list by the file's; an absent file makes the list empty and saves it,
      without reading it back. */
  function Load(s: State, fault: Option<LoadStep>): Loaded<Items>
  {
    if fault == Some(OpenFile) then Loaded(s, fault)
    else
      match s.file
      case Absent =>
        var save := BootstrapFault(fault);
        Loaded(Snapshot([], Saved(s.file, [], save)), if save.Some? then fault else None)
      case Holds(list) =>
        if fault == Some(Decode) then Loaded(s, fault)
        else Loaded(Snapshot(list, s.file), if fault == Some(CloseAfterDecode) then fault else None)
      case Damaged => Loaded(s, Some(Decode))
  }

  /** With the file absent the list becomes empty whatever fails afterwards;
      when nothing fails the file then holds the empty list. */
  lemma LoadAbsentResets(items: Items, fault: Option<LoadStep>)
    requires fault != Some(OpenFile)
    ensures Load(Snapshot(items, Absent), fault).state.items == []
    ensures fault == None ==> Load(Snapshot(items, Absent), fault) == Loaded(Snapshot([], Holds([])), None)
  {
  }

  /** A readable file replaces the list whatever the list held before. */
  lemma LoadPresentReplaces(items: Items, disk: Items, fault: Option<LoadStep>)
    requires fault != Some(OpenFile) && fault != Some(Decode)
    ensures Load(Snapshot(items, Holds(disk)), fault).state == Snapshot(disk, Holds(disk))
    ensures Load(Snapshot(items, Holds(disk)), fault).err == (if fault == Some(CloseAfterDecode) then fault else None)
  {
  }

  /** Whatever the list holds by then, loading after a save that wrote its
      content gives back exactly what was saved. */
  lemma SaveThenLoad(saved: Items, later: Items, file: File<Items>, fault: Option<SaveStep>)
    requires fault == None || fault == Some(CloseAfterEncode)
    ensures Load(Snapshot(later, Saved(file, saved, fault)), None) == Loaded(Snapshot(saved, Holds(saved)), None)
  {
  }

  /** The package-level `Items` list together with the backing file. */
  class ItemList {
    var items: Items
    var file: File<Items>

    ghost function State(): State
      reads this
    {
      Snapshot(items, file)
    }

    /** The list starts empty (a nil slice) over whatever the file holds. */
    constructor (file: File<Items>)
      ensures items == [] && this.file == file
    {
      items := [];
      this.file := file;
    }

    method AddItem(item: Item)
      modifies this`items
      ensures items == old(items) + [item]
      ensures |items| == |old(items)| + 1 && items[|items| - 1] == item
    {
      items := items + [item];
    }

    /** `id` names a position of the list, counting from 1. */
    function IsValidId(id: int): (b: bool)
      reads this
      ensures b <==> 0 <= id - 1 < |items|
    {
      id >= 1 && id <= |items|
    }

    /** Overwrites the three fields of the item at position `id`. */
    method UpdateItem(id: int, item: Item) returns (err: Option<ListError>)
      modifies this`items
      ensures err == if old(IsValidId(id)) then None else Some(InvalidId(id))
      ensures err.Some? ==> items == old(items)
      ensures err.None? ==> items == old(items)[id - 1 := item]
    {
      if !IsValidId(id) {
        return Some(InvalidId(id));
      }
      items := items[id - 1 := items[id - 1].(name := item.name)];
      items := items[id - 1 := items[id - 1].(desc := item.desc)];
      items := items[id - 1 := items[id - 1].(status := item.status)];
      return None;
    }

    /** Removes the item at position `id`, closing the gap. */
    method DeleteItem(id: int) returns (err: Option<ListError>)
      modifies this`items
      ensures err == if old(IsValidId(id)) then None else Some(InvalidId(id))
      ensures err.Some? ==> items == old(items)
      ensures err.None? ==> items == Without(old(items), id - 1)
    {
      if !IsValidId(id) {
        return Some(InvalidId(id));
      }
      items := items[..id - 1] + items[id..];
      return None;
    }

    /** Writes the whole list to the file; `fault` is its first failing call. */
    method SaveItems(fault: Option<SaveStep>) returns (err: Option<SaveStep>)
      modifies this`file
      ensures err == fault
      ensures file == Saved(old(file), items, fault)
      ensures fault == None ==> file == Holds(items)
    {
      if fault == Some(CreateFile) {
        return fault;
      }
      if fault == Some(Encode) {
        file := Damaged;
        return fault;
      }
      file := Holds(items);
      return fault;
    }

    method LoadItems(fault: Option<LoadStep>) returns (err: Option<LoadStep>)
      modifies this
      ensures Loaded(State(), err) == Load(old(State()), fault)
    {
      if fault == Some(OpenFile) {
        return fault;
      }
      if file.Absent? {
        items := [];
        var saveErr := SaveItems(BootstrapFault(fault));
        if saveErr.Some? {
          return Some(Bootstrap(saveErr.value));
        }
        return None;
      }
      if !file.Holds? || fault == Some(Decode) {
        return Some(Decode);
      }
      items := file.content;
      if fault == Some(CloseAfterDecode) {
        return fault;
      }
      return None;
    }
  }
}
