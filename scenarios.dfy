/** Clients of ItemStore.Store that replay the store's tests
    (internal/store/store_test.go) and a create, read, delete round trip.
    What each proves follows from the Store contracts alone. */
module StoreScenarios {
  import opened Io
  import opened ItemStore

  const First := Item("id1", "name1", "desc1", "status1")
  const Second := Item("id2", "name2", "desc2", "status2")

  /** The two entries every test starts from. */
  function TestData(): (m: Items)
    ensures KeyedById(m) && |m| == 2
  {
    map["id1" := First, "id2" := Second]
  }

  /** On a store in any state, Create followed by Read of the returned id
      gives back the created item. */
  method CreateThenRead(s: Store, item: Item, id: ItemID)
    returns (created: Result<Item>, read: Result<Item>)
    requires id != ""
    modifies s
    ensures created.Ok? ==> created.value == item.(id := id) && read == created
  {
    created := s.Create(item, id, None, None);
    SaveThenLoad(s.items, s.file);
    read := s.Read(id, None);
  }

  /** On a store in any state, Create, Delete of the created id, then Read:
      the delete finds the item and the read then reports it missing. */
  method CreateDeleteRead(s: Store, item: Item, id: ItemID)
    returns (created: Result<Item>, deleted: Option<StoreError>, read: Result<Item>)
    requires id != ""
    modifies s
    ensures created.Ok? ==> deleted == None && read == Err(NotFound)
  {
    created := s.Create(item, id, None, None);
    SaveThenLoad(s.items, s.file);
    deleted := s.Delete(id, None, None);
    SaveThenLoad(s.items, s.file);
    read := s.Read(id, None);
  }

  /** The set-up of Test_Create_AddsToItems: two entries in memory and no
      file. The load empties the map, so after Create it holds one entry, not
      the three the test expects. */
  method PrefilledCreateWithFileAbsent(item: Item, id: ItemID)
    returns (created: Result<Item>, count: nat)
    requires id != ""
    ensures created == Ok(item.(id := id))
    ensures count == 1
  {
    var s := new Store.Prefilled(TestData(), Absent);
    created := s.Create(item, id, None, None);
    count := |s.items|;
  }

  /** The set-up of Test_Read_ReturnsItem: the pre-filled entries are gone
      after the load, so reading "id2" reports it missing. */
  method PrefilledReadWithFileAbsent() returns (read: Result<Item>)
    ensures read == Err(NotFound)
  {
    var s := new Store.Prefilled(TestData(), Absent);
    read := s.Read("id2", None);
  }

  /** ReadAll on the test entries, held by the file: both items, once each,
      and the map unchanged. */
  method ReadAllReturnsLoadedItems() returns (all: Result<seq<Item>>, after: Items)
    ensures all.Ok? && multiset(all.value) == multiset{First, Second}
    ensures after == TestData()
  {
    var s := new Store(Holds(TestData()));
    LoadIntoEmpty(TestData());
    all := s.ReadAll(None);
    after := s.items;
    TestDataBag();
  }

  /** A fresh store loads exactly what the file holds. */
  lemma LoadIntoEmpty(m: Items)
    ensures Load(Snapshot(map[], Holds(m)), None) == Loaded(Snapshot(m, Holds(m)), None)
  {
    assert Merge(map[], m) == m;
  }

  lemma TestDataBag()
    ensures ValueBag(TestData()) == multiset{First, Second}
  {
    var m := TestData();
    ValueBagKeyed(m);
    assert m.Values == {First, Second} by {
      assert m["id1"] == First && m["id2"] == Second;
    }
  }

  /** Update of "id2" on the test entries, held by the file: the returned item
      carries the key as its id and only "id2" changes. */
  method UpdateUpdatesLoadedItems() returns (updated: Result<Item>, after: Items)
    ensures updated == Ok(Item("id2", "name3", "desc3", "status3"))
    ensures after == map["id1" := First, "id2" := Item("id2", "name3", "desc3", "status3")]
  {
    var s := new Store(Holds(TestData()));
    updated := s.Update("id2", Item("", "name3", "desc3", "status3"), None, None);
    after := s.items;
  }

  /** Delete of "id2" on the test entries, held by the file: only "id1" is left. */
  method DeleteRemovesLoadedItem() returns (deleted: Option<StoreError>, after: Items)
    ensures deleted == None
    ensures after == map["id1" := First]
  {
    var s := new Store(Holds(TestData()));
    deleted := s.Delete("id2", None, None);
    after := s.items;
  }
}
