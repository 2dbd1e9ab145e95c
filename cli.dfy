/** The subcommands of main.go. Each loads the list, changes it and saves it,
    returning at the first error. main.go's own `Items` list and its helper
    functions behave as those of pkg/jsonstore/jsonstore.go: where main.go
    returns `errors.Wrapf(err, ...)` directly instead of first testing
    `err != nil`, the result is the same because wrapping a nil error gives
    nil. So the list is a JsonStore.ItemList. Argument parsing and printing
    are not modelled. */
module LegacyCli {
  import opened Io
  import opened JsonStore

  /** `add`: appends the item built from the flags and saves the list. */
  method AddCommand(list: ItemList, name: string, desc: string, status: string,
                    loadFault: Option<LoadStep>, saveFault: Option<SaveStep>)
    returns (err: Option<ListError>)
    modifies list
    ensures var l := Load(old(list.State()), loadFault);
      && (l.err.Some? ==> err == Some(LoadFailed(l.err.value)) && list.State() == l.state)
      && (l.err.None? ==>
            && list.items == l.state.items + [Item(name, desc, status)]
            && list.file == Saved(l.state.file, list.items, saveFault)
            && err == if saveFault == None then None else Some(SaveFailed(saveFault.value)))
    ensures err == None ==>
      list.file == Holds(Load(old(list.State()), loadFault).state.items + [Item(name, desc, status)])
  {
    var loadErr := list.LoadItems(loadFault);
    if loadErr.Some? {
      return Some(LoadFailed(loadErr.value));
    }
    list.AddItem(Item(name, desc, status));
    var saveErr := list.SaveItems(saveFault);
    if saveErr.Some? {
      return Some(SaveFailed(saveErr.value));
    }
    return None;
  }

  /** `list`: loads the list; printing it is not modelled. */
  method ListCommand(list: ItemList, loadFault: Option<LoadStep>) returns (err: Option<ListError>)
    modifies list
    ensures var l := Load(old(list.State()), loadFault);
      && list.State() == l.state
      && err == if l.err.Some? then Some(LoadFailed(l.err.value)) else None
  {
    var loadErr := list.LoadItems(loadFault);
    if loadErr.Some? {
      return Some(LoadFailed(loadErr.value));
    }
    return None;
  }

  /** `update`: overwrites the item at position `id` and saves the list. An
      invalid id returns before the save, so the file keeps what the load
      left there. */
  method UpdateCommand(list: ItemList, id: int, name: string, desc: string, status: string,
                       loadFault: Option<LoadStep>, saveFault: Option<SaveStep>)
    returns (err: Option<ListError>)
    modifies list
    ensures var l := Load(old(list.State()), loadFault);
      && (l.err.Some? ==> err == Some(LoadFailed(l.err.value)) && list.State() == l.state)
      && (l.err.None? && !(1 <= id <= |l.state.items|) ==>
            err == Some(InvalidId(id)) && list.State() == l.state)
      && (l.err.None? && 1 <= id <= |l.state.items| ==>
            && list.items == l.state.items[id - 1 := Item(name, desc, status)]
            && list.file == Saved(l.state.file, list.items, saveFault)
            && err == if saveFault == None then None else Some(SaveFailed(saveFault.value)))
  {
    var loadErr := list.LoadItems(loadFault);
    if loadErr.Some? {
      return Some(LoadFailed(loadErr.value));
    }
    var updateErr := list.UpdateItem(id, Item(name, desc, status));
    if updateErr.Some? {
      return updateErr;
    }
    var saveErr := list.SaveItems(saveFault);
    if saveErr.Some? {
      return Some(SaveFailed(saveErr.value));
    }
    return None;
  }

  /** `delete`: removes the item at position `id` and saves the list. An
      invalid id returns before the save. */
  method DeleteCommand(list: ItemList, id: int, loadFault: Option<LoadStep>, saveFault: Option<SaveStep>)
    returns (err: Option<ListError>)
    modifies list
    ensures var l := Load(old(list.State()), loadFault);
      && (l.err.Some? ==> err == Some(LoadFailed(l.err.value)) && list.State() == l.state)
      && (l.err.None? && !(1 <= id <= |l.state.items|) ==>
            err == Some(InvalidId(id)) && list.State() == l.state)
      && (l.err.None? && 1 <= id <= |l.state.items| ==>
            && list.items == Without(l.state.items, id - 1)
            && list.file == Saved(l.state.file, list.items, saveFault)
            && err == if saveFault == None then None else Some(SaveFailed(saveFault.value)))
  {
    var loadErr := list.LoadItems(loadFault);
    if loadErr.Some? {
      return Some(LoadFailed(loadErr.value));
    }
    var deleteErr := list.DeleteItem(id);
    if deleteErr.Some? {
      return deleteErr;
    }
    var saveErr := list.SaveItems(saveFault);
    if saveErr.Some? {
      return Some(SaveFailed(saveErr.value));
    }
    return None;
  }
}
