/** The item store of internal/store/store.go: a map from item id to item,
    kept in memory and in the backing file. Every operation first loads the
    file into the map; the mutating ones then write the whole map back. */
module ItemStore {
  import opened Io

  type ItemID = string

  /** A to-do item; `id` is the key the store filed it under. */
  datatype Item = Item(id: string, name: string, desc: string, status: string)

  type Items = map<ItemID, Item>

  type State = Snapshot<Items>

  datatype StoreError = NotFound | LoadFailed(load: LoadStep) | SaveFailed(save: SaveStep)

  /** What an operation returns. The source pairs every error with the zero
      item (or an empty list); the model's `Err` carries no value instead. */
  datatype Result<+T> = Ok(value: T) | Err(error: StoreError)

  /** Every entry has a non-empty id equal to its key. */
  predicate KeyedById(m: Items)
  {
    forall k :: k in m ==> k != "" && m[k].id == k
  }

  /** Memory and a readable file both file every item under its own id. */
  predicate Consistent(s: State)
  {
    KeyedById(s.items) && (s.file.Holds? ==> KeyedById(s.file.content))
  }

  /** Decoding a file into the existing map: keys that appear in the file take
      the file's entry, keys only in memory keep theirs. */
  function Merge(memory: Items, disk: Items): (r: Items)
    ensures r.Keys == memory.Keys + disk.Keys
    ensures forall k :: k in disk ==> r[k] == disk[k]
    ensures forall k :: k in memory && k !in disk ==> r[k] == memory[k]
  {
    memory + disk
  }

  /** Decode and close of an opened file. A file that does not decode leaves
      the map as it was; a failed close is reported after the map was
      already merged. */
  function Decoded(s: State, fault: Option<LoadStep>): Loaded<Items>
  {
    match s.file
    case Holds(disk) =>
      if fault == Some(Decode) then Loaded(s, fault)
      else
        Loaded(Snapshot(Merge(s.items, disk), s.file),
               if fault == Some(CloseAfterDecode) then fault else None)
    case _ => Loaded(s, Some(Decode))
  }

  /** What `LoadItems` does to memory and file. When the file is absent the
      map is emptied first, an empty map is saved and the new file is opened
      and decoded again. */
  function Load(s: State, fault: Option<LoadStep>): Loaded<Items>
  {
    if fault == Some(OpenFile) then Loaded(s, fault)
    else if s.file.Absent? then
      var save := BootstrapFault(fault);
      var reset := Snapshot(map[], Saved(s.file, map[], save));
      if save.Some? || fault == Some(Reopen) then Loaded(reset, fault)
      else Decoded(reset, fault)
    else Decoded(s, fault)
  }

  /** Taking one key out of a map leaves one entry fewer. */
  lemma RemoveKeySize(m: Items, k: ItemID)
    requires k in m
    ensures |m - {k}| == |m| - 1
  {
    assert (m - {k}).Keys == m.Keys - {k};
  }

  /** Some key of a non-empty map; which one does not matter. */
  ghost function AnyKey(m: Items): (k: ItemID)
    requires m != map[]
    ensures k in m
  {
    var k :| k in m; k
  }

  /** The values of a map, one per key. */
  ghost function ValueBag(m: Items): (b: multiset<Item>)
    ensures |b| == |m|
    decreases |m|
  {
    if m == map[] then multiset{}
    else
      var k := AnyKey(m);
      RemoveKeySize(m, k);
      multiset{m[k]} + ValueBag(m - {k})
  }

  /** Any key, not only the one the definition picks, can be split off. */
  lemma {:induction false} ValueBagRemove(m: Items, k: ItemID)
    requires k in m
    ensures ValueBag(m) == multiset{m[k]} + ValueBag(m - {k})
    decreases |m|
  {
    var j := AnyKey(m);
    if j != k {
      RemoveKeySize(m, j);
      RemoveKeySize(m, k);
      ValueBagRemove(m - {j}, k);
      ValueBagRemove(m - {k}, j);
      ValueBagSwap(m, j, k);
    }
  }

  lemma RemoveCommutes(m: Items, j: ItemID, k: ItemID)
    ensures m - {j} - {k} == m - {k} - {j}
  {
    assert (m - {j} - {k}).Keys == (m - {k} - {j}).Keys;
  }

  /** The step of `ValueBagRemove` that trades the picked key for `k`. */
  lemma ValueBagSwap(m: Items, j: ItemID, k: ItemID)
    requires j in m && k in m && j != k
    requires ValueBag(m) == multiset{m[j]} + ValueBag(m - {j})
    requires ValueBag(m - {j}) == multiset{(m - {j})[k]} + ValueBag(m - {j} - {k})
    requires ValueBag(m - {k}) == multiset{(m - {k})[j]} + ValueBag(m - {k} - {j})
    ensures ValueBag(m) == multiset{m[k]} + ValueBag(m - {k})
  {
    var both := m - {j} - {k};
    RemoveCommutes(m, j, k);
    var rest := ValueBag(both);
    assert ValueBag(m - {k}) == multiset{m[j]} + rest;
    assert ValueBag(m) == multiset{m[j]} + (multiset{m[k]} + rest);
  }

  /** An item is among the values exactly when some key maps to it. */
  lemma {:induction false} ValueBagMembers(m: Items, x: Item)
    ensures x in ValueBag(m) <==> x in m.Values
    decreases |m|
  {
    if m != map[] {
      var k := AnyKey(m);
      var rest := m - {k};
      ValueBagRemove(m, k);
      RemoveKeySize(m, k);
      ValueBagMembers(rest, x);
      if x in m.Values && x != m[k] {
        var k' :| k' in m && m[k'] == x;
        assert k' in rest && rest[k'] == x;
      }
      if x in rest.Values {
        var k' :| k' in rest && rest[k'] == x;
        assert m[k'] == x;
      }
    }
  }

  /** When every entry is filed under its own id, no item occurs twice. */
  lemma {:induction false} ValueBagKeyed(m: Items)
    requires KeyedById(m)
    ensures ValueBag(m) == multiset(m.Values)
    decreases |m|
  {
    if m != map[] {
      var k := AnyKey(m);
      var rest := m - {k};
      ValueBagRemove(m, k);
      RemoveKeySize(m, k);
      ValueBagKeyed(rest);
      forall v | v in m.Values
        ensures v == m[k] || v in rest.Values
      {
        var k' :| k' in m && m[k'] == v;
        if k' != k {
          assert k' in rest && rest[k'] == v;
        }
      }
      forall v | v in rest.Values
        ensures v in m.Values && v != m[k]
      {
        var k' :| k' in rest && rest[k'] == v;
        assert m[k'] == v && v.id == k';
      }
      assert m.Values == {m[k]} + rest.Values;
    }
  }

  /** The loop of `ReadAll`: one value per key, in whatever order the keys
      are visited. */
  method ValuesOf(m: Items) returns (s: seq<Item>)
    ensures multiset(s) == ValueBag(m)
    ensures |s| == |m|
  {
    s := [];
    var rest := m;
    while rest != map[]
      invariant multiset(s) + ValueBag(rest) == ValueBag(m)
      decreases |rest|
    {
      var k :| k in rest;
      ValueBagRemove(rest, k);
      assert (rest - {k}).Keys == rest.Keys - {k};
      s := s + [rest[k]];
      rest := rest - {k};
    }
  }

  /** A load with the file absent empties the map whatever fails afterwards,
      and when nothing fails the file then holds the empty map. */
  lemma LoadAbsentResets(m: Items, fault: Option<LoadStep>)
    requires fault != Some(OpenFile)
    ensures Load(Snapshot(m, Absent), fault).state.items == map[]
    ensures fault == None ==> Load(Snapshot(m, Absent), fault) == Loaded(Snapshot(map[], Holds(map[])), None)
  {
  }

  /** A load of a readable file merges it into memory; only a failed close is
      reported after that. */
  lemma LoadPresentMerges(m: Items, disk: Items, fault: Option<LoadStep>)
    requires fault != Some(OpenFile) && fault != Some(Decode)
    ensures Load(Snapshot(m, Holds(disk)), fault).state == Snapshot(Merge(m, disk), Holds(disk))
    ensures Load(Snapshot(m, Holds(disk)), fault).err == (if fault == Some(CloseAfterDecode) then fault else None)
  {
  }

  /** A failed load never writes a readable file other than the empty one it
      bootstraps, and leaves memory as it was or empty. */
  lemma LoadFailureKeepsMemoryOrEmpties(s: State, fault: Option<LoadStep>)
    requires Load(s, fault).err.Some? && Load(s, fault).err != Some(CloseAfterDecode)
    ensures Load(s, fault).state.items in {s.items, map[]}
    ensures Load(s, fault).state.file in {s.file, Holds(map[]), Damaged}
  {
  }

  /** A damaged file is never repaired by a load: every load fails and
      leaves everything as it was. */
  lemma DamagedFileBlocksLoad(m: Items, fault: Option<LoadStep>)
    ensures Load(Snapshot(m, Damaged), fault).err.Some?
    ensures Load(Snapshot(m, Damaged), fault).state == Snapshot(m, Damaged)
  {
  }

  /** Loading again right after a successful load changes nothing. */
  lemma {:induction false} LoadIdempotent(s: State)
    requires Load(s, None).err == None
    ensures Load(Load(s, None).state, None) == Load(s, None)
  {
    var t := Load(s, None).state;
    assert t.file.Holds?;
    var u := Merge(t.items, t.file.content);
    assert u.Keys == t.items.Keys;
    assert u == t.items;
  }

  /** Saving the map and then loading it gives back the same map. */
  lemma {:induction false} SaveThenLoad(m: Items, file: File<Items>)
    ensures Load(Snapshot(m, Saved(file, m, None)), None) == Loaded(Snapshot(m, Holds(m)), None)
  {
    assert Merge(m, m) == m;
  }

  /** Loading keeps every item filed under its own id when the file does. */
  lemma LoadKeepsConsistent(s: State, fault: Option<LoadStep>)
    requires Consistent(s)
    ensures Consistent(Load(s, fault).state)
  {
  }

  class Store {
    var items: Items
    var file: File<Items>

    ghost function State(): State
      reads this
    {
      Snapshot(items, file)
    }

    ghost predicate Valid()
      reads this
    {
      Consistent(State())
    }

    /** `NewStore`: an empty map over whatever the backing file holds. */
    constructor (file: File<Items>)
      ensures items == map[] && this.file == file
    {
      items := map[];
      this.file := file;
    }

    /** A store whose map is already filled, as the tests build one. */
    constructor Prefilled(items: Items, file: File<Items>)
      ensures this.items == items && this.file == file
    {
      this.items := items;
      this.file := file;
    }

    /** Writes the whole map to the file; `fault` is its first failing call. */
    method SaveItems(fault: Option<SaveStep>) returns (err: Option<SaveStep>)
      modifies this`file
      ensures err == fault
      ensures file == Saved(old(file), items, fault)
      ensures fault == None ==> file == Holds(items)
    {
      if fault == Some(CreateFile) {
        return fault;
      }
      if fault == Some(Encode) {
        file := Damaged;
        return fault;
      }
      file := Holds(items);
      return fault;
    }

    method LoadItems(fault: Option<LoadStep>) returns (err: Option<LoadStep>)
      modifies this
      ensures Loaded(State(), err) == Load(old(State()), fault)
      ensures old(Valid()) ==> Valid()
    {
      if Valid() {
        LoadKeepsConsistent(State(), fault);
      }
      if fault == Some(OpenFile) {
        return fault;
      }
      if file.Absent? {
        items := map[];
        var saveErr := SaveItems(BootstrapFault(fault));
        if saveErr.Some? {
          return Some(Bootstrap(saveErr.value));
        }
        if fault == Some(Reopen) {
          return fault;
        }
      }
      if !file.Holds? || fault == Some(Decode) {
        return Some(Decode);
      }
      items := Merge(items, file.content);
      if fault == Some(CloseAfterDecode) {
        return fault;
      }
      return None;
    }

    /** Files `item` under the generated `id`, which is also stamped into it.
        The id comes from `NewItemID`, a UUID rendered as text, never empty. */
    method Create(item: Item, id: ItemID, loadFault: Option<LoadStep>, saveFault: Option<SaveStep>)
      returns (r: Result<Item>)
      requires id != ""
      modifies this
      ensures var l := Load(old(State()), loadFault);
        && (l.err.Some? ==> r == Err(LoadFailed(l.err.value)) && State() == l.state)
        && (l.err.None? ==>
              && items == l.state.items[id := item.(id := id)]
              && file == Saved(l.state.file, items, saveFault)
              && r == if saveFault == None then Ok(item.(id := id)) else Err(SaveFailed(saveFault.value)))
        && (l.err.None? && id !in l.state.items ==> |items| == |l.state.items| + 1)
      ensures r.Ok? ==> r.value == item.(id := id) && id in items && items[id] == r.value && file == Holds(items)
      ensures old(Valid()) ==> Valid()
    {
      var loadErr := LoadItems(loadFault);
      if loadErr.Some? {
        return Err(LoadFailed(loadErr.value));
      }
      var stamped := item.(id := id);
      items := items[id := stamped];
      var saveErr := SaveItems(saveFault);
      if saveErr.Some? {
        return Err(SaveFailed(saveErr.value));
      }
      return Ok(stamped);
    }

    /** Every item, one per key, in no particular order. */
    method ReadAll(loadFault: Option<LoadStep>) returns (r: Result<seq<Item>>)
      modifies this
      ensures var l := Load(old(State()), loadFault);
        && State() == l.state
        && (l.err.Some? ==> r == Err(LoadFailed(l.err.value)))
        && (l.err.None? ==> r.Ok? && multiset(r.value) == ValueBag(items) && |r.value| == |items|)
      ensures old(Valid()) ==> Valid()
      ensures old(Valid()) && r.Ok? ==> multiset(r.value) == multiset(items.Values)
    {
      var loadErr := LoadItems(loadFault);
      if loadErr.Some? {
        return Err(LoadFailed(loadErr.value));
      }
      if Valid() {
        ValueBagKeyed(items);
      }
      var values := ValuesOf(items);
      return Ok(values);
    }

    method Read(id: ItemID, loadFault: Option<LoadStep>) returns (r: Result<Item>)
      modifies this
      ensures var l := Load(old(State()), loadFault);
        && State() == l.state
        && r == if l.err.Some? then Err(LoadFailed(l.err.value))
                else if id in items then Ok(items[id])
                else Err(NotFound)
      ensures old(Valid()) ==> Valid()
    {
      var loadErr := LoadItems(loadFault);
      if loadErr.Some? {
        return Err(LoadFailed(loadErr.value));
      }
      if id !in items {
        return Err(NotFound);
      }
      return Ok(items[id]);
    }

    /** Replaces the item filed under `id`, keeping `id` as its id. */
    method Update(id: ItemID, item: Item, loadFault: Option<LoadStep>, saveFault: Option<SaveStep>)
      returns (r: Result<Item>)
      modifies this
      ensures var l := Load(old(State()), loadFault);
        && (l.err.Some? ==> r == Err(LoadFailed(l.err.value)) && State() == l.state)
        && (l.err.None? && id !in l.state.items ==> r == Err(NotFound) && State() == l.state)
        && (l.err.None? && id in l.state.items ==>
              && items == l.state.items[id := item.(id := id)]
              && file == Saved(l.state.file, items, saveFault)
              && r == if saveFault == None then Ok(item.(id := id)) else Err(SaveFailed(saveFault.value)))
      ensures r.Ok? ==> r.value == item.(id := id) && items[id] == r.value && file == Holds(items)
      ensures old(Valid()) ==> Valid()
    {
      var loadErr := LoadItems(loadFault);
      if loadErr.Some? {
        return Err(LoadFailed(loadErr.value));
      }
      if id !in items {
        return Err(NotFound);
      }
      var stamped := item.(id := id);
      items := items[id := stamped];
      var saveErr := SaveItems(saveFault);
      if saveErr.Some? {
        return Err(SaveFailed(saveErr.value));
      }
      return Ok(stamped);
    }

    /** Removes the item filed under `id`. */
    method Delete(id: ItemID, loadFault: Option<LoadStep>, saveFault: Option<SaveStep>)
      returns (err: Option<StoreError>)
      modifies this
      ensures var l := Load(old(State()), loadFault);
        && (l.err.Some? ==> err == Some(LoadFailed(l.err.value)) && State() == l.state)
        && (l.err.None? && id !in l.state.items ==> err == Some(NotFound) && State() == l.state)
        && (l.err.None? && id in l.state.items ==>
              && items == l.state.items - {id}
              && |items| == |l.state.items| - 1
              && file == Saved(l.state.file, items, saveFault)
              && err == if saveFault == None then None else Some(SaveFailed(saveFault.value)))
      ensures err == None ==> id !in items && file == Holds(items)
      ensures old(Valid()) ==> Valid()
    {
      var loadErr := LoadItems(loadFault);
      if loadErr.Some? {
        return Some(LoadFailed(loadErr.value));
      }
      if id !in items {
        return Some(NotFound);
      }
      items := items - {id};
      assert items.Keys == old(Load(State(), loadFault)).state.items.Keys - {id};
      var saveErr := SaveItems(saveFault);
      if saveErr.Some? {
        return Some(SaveFailed(saveErr.value));
      }
      return None;
    }
  }
}
