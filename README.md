# To-do item store, modelled in Dafny

This project models the persistence core of a to-do manager. The manager keeps
items (name, description, status) in one file, `items.json`, that is rewritten
in full on every save. It comes in two generations.

- **The item store** (`internal/store/store.go`, module `ItemStore`). It holds a
  map from item id to item. Every operation (`Create`, `ReadAll`, `Read`,
  `Update`, `Delete`) first loads the file into the map. The mutating ones then
  save the whole map. A load decodes the file into the existing map, so the
  file's entries overwrite same-key entries and memory-only keys survive. When
  the file is absent, the map is emptied, an empty map is saved and that file
  is decoded again.
- **The legacy list store** (`pkg/jsonstore/jsonstore.go`, module `JsonStore`).
  It holds a list addressed by 1-based position. It has append, positional
  update and delete guarded by `isValidId`, and explicit load and save. A load
  replaces the list with the file's list. `main.go` carries a copy of this
  list and its functions that behaves the same, though it is not written the
  same. At `main.go:255` a bare `return` ends the absent-file path, where
  `jsonstore.go:71` returns `err`; `err` is nil there in both. At `main.go:271`
  and `main.go:291` the result is `errors.Wrapf(err, ...)` with no `err != nil`
  test first; `Wrapf` of pkg/errors returns nil for a nil error, so success
  still returns nil. Its `add`, `list`, `update` and `delete` subcommands
  (module `LegacyCli`) chain load, change and save, and return at the first
  error.

The file is a value `File<C> = Absent | Holds(content) | Damaged` (module `Io`).
`Damaged` is what a save leaves when it truncated the file and then failed to
write it; the model takes such a file to no longer decode. Each I/O call that can fail is an
oracle parameter. `Option<SaveStep>` and `Option<LoadStep>` name the first
call that fails, or `None`. A fault for a call the path never reaches has no
effect. A failed close comes after the unbuffered write or after the decode.
So a close failure is reported as an error even though the save already
reached the file, or the load already changed memory.

The store's methods are stated against the functions `ItemStore.Load` and
`JsonStore.Load`. These give the state right after loading. Each operation's
contract then says what it does to that post-load state. The store also keeps
an invariant, `Valid()`: every entry is filed under its own id, which is not
empty, in memory and in a readable file. Every store operation preserves it.

The store's tests pre-fill the map and delete the file before each test. Under
`internal/store/store.go:128`, that first load empties the map. So several test
assertions do not hold against the code. The model follows the code.
`StoreScenarios.PrefilledCreateWithFileAbsent` and
`StoreScenarios.PrefilledReadWithFileAbsent` prove what the code does in those
set-ups. The other scenarios replay the tests with the entries held by the file
instead, which checks the post-load behaviour the tests mean.

## Model

| member | source | states |
|---|---|---|
| ItemStore.Merge | internal/store/store.go:147-148 | decoding into the existing map: keys are the union, the file's entry wins on a shared key, memory-only keys keep their entry |
| ItemStore.LoadAbsentResets | internal/store/store.go:122-138 | with the file absent the map becomes empty whatever fails afterwards; with no fault the file then holds the empty map and no error is reported |
| ItemStore.LoadPresentMerges | internal/store/store.go:140-154 | a readable file is merged into memory and left as it is; only a failed close is reported after the merge |
| ItemStore.LoadFailureKeepsMemoryOrEmpties | internal/store/store.go:120-155 | a load failing before the decode leaves memory as it was or empty, and the file as it was, empty, or damaged |
| ItemStore.DamagedFileBlocksLoad | internal/store/store.go:147-152 | a file that does not decode makes every load fail and changes neither memory nor file |
| ItemStore.LoadIdempotent | internal/store/store.go:120-155 | loading again right after a successful load changes nothing |
| ItemStore.SaveThenLoad | internal/store/store.go:157-179 | saving the map and then loading it gives back exactly that map, with no error |
| ItemStore.LoadKeepsConsistent | internal/store/store.go:120-155 | loading keeps every entry filed under its own id when memory and file did |
| ItemStore.ValueBagMembers | internal/store/store.go:62-65 | an item is among the listed values exactly when some key maps to it |
| ItemStore.ValueBagKeyed | internal/store/store.go:62-65 | when entries are filed under their own ids, the listed values are the map's values, each once |
| ItemStore.ValueBagRemove | internal/store/store.go:62-65 | any key can be split off the values, so the order of visiting keys does not matter |
| ItemStore.ValuesOf | internal/store/store.go:62-65 | the append loop returns one value per key: as a multiset, exactly the map's values |
| ItemStore.Store.constructor | internal/store/store.go:35-39 | a new store has an empty map over whatever the file holds |
| ItemStore.Store.Prefilled | internal/store/store_test.go:88-94 | a store built with given entries, as the tests build one |
| ItemStore.Store.SaveItems | internal/store/store.go:157-179 | the file afterwards holds the map unless create failed (old file kept) or encode failed (damaged); the error is the first failing call |
| ItemStore.Store.LoadItems | internal/store/store.go:120-155 | memory, file and error afterwards are those of `Load`; the id invariant is preserved |
| ItemStore.Store.Create | internal/store/store.go:41-55 | for a non-empty id, as a UUID always is: after a load error: that error and nothing saved. Otherwise the map gains the item stamped with the id, the id maps to it, the map grows by one for a fresh id, and the save follows. Only the id differs from the input; on success the file equals the map. A failed save keeps the new entry in memory |
| ItemStore.Store.ReadAll | internal/store/store.go:57-68 | the post-load state is not changed and nothing is saved; on success the result holds the map's values, one per key, and, for a store whose entries are filed under their own ids, each distinct item exactly once |
| ItemStore.Store.Read | internal/store/store.go:70-81 | the post-load state is not changed; the result is the entry for the id, or "not found" when the key is missing, or the load error |
| ItemStore.Store.Update | internal/store/store.go:83-100 | a missing id is "not found" with no save. Otherwise the entry becomes the new item with its id forced to the key, other keys stay unchanged, and it is saved. The stored item is returned; a failed save keeps the change in memory |
| ItemStore.Store.Delete | internal/store/store.go:102-118 | a missing id is "not found" with no save; otherwise exactly that key is removed (one entry fewer) and the map is saved |
| JsonStore.Without | pkg/jsonstore/jsonstore.go:52 | cutting element `i` out: one shorter, elements before `i` unchanged, later ones shifted down by one, the same items minus the removed one |
| JsonStore.LoadAbsentResets | pkg/jsonstore/jsonstore.go:61-72 | with the file absent the list becomes empty; with no fault the file then holds the empty list and no error is reported |
| JsonStore.LoadPresentReplaces | pkg/jsonstore/jsonstore.go:84-91 | a readable file replaces the list whatever it held; only a failed close is reported after that |
| JsonStore.SaveThenLoad | pkg/jsonstore/jsonstore.go:94-116 | a save that wrote the list followed by a successful load gives back exactly the saved list |
| JsonStore.ItemList.constructor | pkg/jsonstore/jsonstore.go:23 | the package-level list starts empty |
| JsonStore.ItemList.AddItem | pkg/jsonstore/jsonstore.go:25-27 | the item is appended: one longer, earlier elements unchanged (also main.go:209-211) |
| JsonStore.ItemList.IsValidId | pkg/jsonstore/jsonstore.go:57-59 | an id is valid exactly when `id - 1` indexes the list (also main.go:241-243) |
| JsonStore.ItemList.UpdateItem | pkg/jsonstore/jsonstore.go:35-45 | an invalid id errors with the list unchanged; a valid id overwrites name, description and status of element `id - 1` only (also main.go:219-229) |
| JsonStore.ItemList.DeleteItem | pkg/jsonstore/jsonstore.go:47-55 | an invalid id errors with the list unchanged; a valid id removes element `id - 1` keeping the order of the rest (also main.go:231-239) |
| JsonStore.ItemList.SaveItems | pkg/jsonstore/jsonstore.go:94-116 | the file afterwards holds the list unless create or encode failed; the error is the first failing call (also main.go:274-292) |
| JsonStore.ItemList.LoadItems | pkg/jsonstore/jsonstore.go:61-92 | list, file and error afterwards are those of `Load` (also main.go:245-272) |
| LegacyCli.AddCommand | main.go:108-137 | a load error returns before any change. Otherwise the built item is appended to the loaded list and saved, and an error is reported after the save exactly when the save failed; on success the file holds the loaded list plus the item |
| LegacyCli.ListCommand | main.go:139-149 | the command only loads and reports the load error |
| LegacyCli.UpdateCommand | main.go:151-182 | an invalid id returns before the save, so the file keeps what the load left; a valid id replaces element `id - 1` and saves, reporting an error after the save exactly when the save failed |
| LegacyCli.DeleteCommand | main.go:184-207 | an invalid id returns before the save; a valid id removes element `id - 1` and saves, reporting an error after the save exactly when the save failed |
| StoreScenarios.TestData | internal/store/store_test.go:88-91 | the two test entries are filed under their own ids |
| StoreScenarios.CreateThenRead | internal/store/store.go:41-81 | on a store in any state, when Create succeeds, a Read of the returned id gives back exactly the created item, which differs from the input only in its id |
| StoreScenarios.CreateDeleteRead | internal/store/store.go:70-118 | on a store in any state, when Create succeeds, Delete of its id succeeds and a Read afterwards reports "not found" |
| StoreScenarios.PrefilledCreateWithFileAbsent | internal/store/store_test.go:111-130 | with two pre-filled entries and no file, Create succeeds but leaves one entry, not three |
| StoreScenarios.PrefilledReadWithFileAbsent | internal/store/store_test.go:176-195 | with pre-filled entries and no file, reading "id2" reports "not found" |
| StoreScenarios.ReadAllReturnsLoadedItems | internal/store/store_test.go:132-174 | ReadAll over the two test entries returns both, once each, and leaves the map unchanged |
| StoreScenarios.UpdateUpdatesLoadedItems | internal/store/store_test.go:219-268 | Update of "id2" returns the new item carrying "id2" and changes only that entry |
| StoreScenarios.DeleteRemovesLoadedItem | internal/store/store_test.go:286-305 | Delete of "id2" succeeds and leaves only "id1" |

## Left out

- Id generation (`NewItemID`, a random UUID) is outside the model. `Create` takes the id as a parameter, so two items can get the same id only if the caller passes it twice. A repeated id overwrites the entry, exactly as the map assignment does.
- The JSON byte format, and the encoder and decoder themselves, are not modelled. The file is the value it decodes to. A file edited to hold `null` or values of the wrong type is not modelled. A file that does not decode is `Damaged`, and decoding it changes nothing.
- ItemStore.SaveThenLoad, JsonStore.SaveThenLoad, StoreScenarios.CreateThenRead: the round trips hold for valid UTF-8 text, which is all a Dafny string can hold. Go strings are byte strings, and encoding/json replaces invalid UTF-8 with U+FFFD when it encodes, so such a string would not come back unchanged.
- A write that fails only at the encoder's trailing newline leaves a file that still decodes, though the save reports an encode error. The model treats every failed encode as leaving a `Damaged` file.
- I/O calls are oracles. The model does not say when an open, create, write or close fails, only what follows when one does.
- ItemStore.Store.Create, ItemStore.Store.Read, ItemStore.Store.Update, ItemStore.Store.ReadAll: an error result carries no value. The source returns the zero item, or an empty list, beside the error.
- Error messages and their wrapping are reduced to the failing step (`LoadFailed`, `SaveFailed`, `NotFound`, `InvalidId`).
- Concurrency: the code has no queue, worker or lock. `Test_ParallelTests` runs operations on one store without synchronisation, so there is no serialisation to model.
- The HTTP layer (`api/handler`, `internal/web`, `cmd/web`), the CLI and REPL front ends (`cmd/cli`, `cmd/repl`, `internal/app`), flag parsing and `main` in `main.go`, and logging and middleware are not part of this model.
- Printing is not modelled: `String`, `PrintItems`, `ListItems` and `listItems`, including the `listItems` call between the change and the save in the commands.
- Rolling back memory when a save fails is not modelled: the code keeps the change in memory after a failed save, and so does the model.
