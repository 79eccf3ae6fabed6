# Basketball-court rental canister, modelled in Dafny

The canister keeps basketball-court bookings (`BasketRental`: id, borrower
name `nama_peminjam`, date `tanggal_pinjam`, hour `jam`, court letter
`tipe_lapangan`, payment status `status`) in two pieces of state: an id
counter cell (`ID_COUNTER`) and an ordered map from `u64` id to record
(`STORAGE`). Five entry points work on them: `get_basket_rental`,
`add_basket_rental`, `update_basket_rental`, `delete_basket_rental` and
`show_list`. The status is derived: `"lunas"` (paid) when `jam >= 17`, else
`"belum"` (unpaid).

Layout:

- `types.dfy` (`RentalTypes`): the record, the payload, the `NotFound`
  error, `u64` as a bounded integer, the status rule and the listed court
  letters.
- `messages.dfy` (`Messages`): the exact `NotFound` texts, with the id
  written in decimal, and the proof that each message determines its id.
- `store.dfy` (`RentalStore`): the state as a value, the invariant
  `Valid`, and one function per entry point giving the new state and the
  result. It also holds ascending-key iteration (`SortedKeys`, `Ordered`)
  and the court filter (`KeepListed`).
- `lemmas.dfy` (`RentalLemmas`): what each entry point does, stated
  through `Get` and the listing.
- `history.dfy` (`RentalHistory`): sequences of calls. The counter only
  grows. Ids from successive adds strictly increase and are never reused,
  even after deletes.
- `canister.dfy` (`Canister`): the class `BasketRentalCanister`. Its
  fields `idCounter` and `storage` are updated in place. Its methods follow
  the Rust bodies step by step, and each is proved to agree with the
  matching `RentalStore` function and to keep `Valid`.

The invariant `Valid` says three things about every stored record:
- it sits under its own id;
- its id is below the counter;
- its status matches its hour.

Ids: `add_basket_rental` takes as id the value returned by
`Cell::set(current_value + 1)`. In ic-stable-structures that is the value
the cell held before the write, so ids are the pre-increment counter. Ids
start at 0, not at 1 as `current_value + 1` might suggest
(`RentalLemmas.FirstIdIsZero`).

## Model

| member | source | states |
|---|---|---|
| RentalTypes.StatusFor | src/icp_rust_boilerplate_backend/src/lib.rs:80-84 | the status is "lunas" exactly when jam >= 17 and "belum" exactly when jam < 17 |
| Messages.DecimalRoundTrip | src/icp_rust_boilerplate_backend/src/lib.rs:66 | parsing the decimal text of an id gives the id back, so the text a message embeds is the id |
| Messages.NotFoundMsgNamesId | src/icp_rust_boilerplate_backend/src/lib.rs:118-123 | each of the three NotFound messages (get, update, delete) determines the id it was raised for: different ids give different messages |
| RentalStore.Init | src/icp_rust_boilerplate_backend/src/lib.rs:42-50 | a fresh canister has counter 0 and an empty map, and satisfies the invariant |
| RentalStore.Get | src/icp_rust_boilerplate_backend/src/lib.rs:62-69 | get succeeds exactly when the id is a key, returning the stored record; otherwise NotFound with "a rental with id=<id> not found" |
| RentalStore.SortedKeys | src/icp_rust_boilerplate_backend/src/lib.rs:148 | the map's iteration order: every key exactly once, strictly ascending |
| RentalStore.Ordered | src/icp_rust_boilerplate_backend/src/lib.rs:148 | the iteration model: the records the map's iterator yields, one per key in SortedKeys order; what that sequence is, RentalLemmas.OrderedIsTheStore states |
| RentalStore.KeepListedMembers | src/icp_rust_boilerplate_backend/src/lib.rs:149-154 | the filter keeps a record exactly when its court letter is 'A', 'B' or 'C' |
| RentalStore.KeepListedSorted | src/icp_rust_boilerplate_backend/src/lib.rs:146-157 | the filter preserves ascending id order |
| RentalStore.KeepListedStep | src/icp_rust_boilerplate_backend/src/lib.rs:148-155 | the loop-step helper for ShowList: the filter's defining equation at one more scanned record; its meaning lies in KeepListedMembers and KeepListedSorted |
| RentalStore.KeepListed | src/icp_rust_boilerplate_backend/src/lib.rs:146-157 | the filter of show_list's loop, never longer than its input; RentalStore.KeepListedMembers and RentalStore.KeepListedSorted give its meaning (exactly the A/B/C records, order kept) |
| RentalStore.Add | src/icp_rust_boilerplate_backend/src/lib.rs:72-97 | add's effect on the state: the id is the old counter, the counter grows by 1, the status follows the payload's jam, get on the new id returns the record and every other id reads as before; RentalLemmas.AddEffect adds the copied fields and that no stored record is overwritten |
| RentalStore.Update | src/icp_rust_boilerplate_backend/src/lib.rs:100-125 | update succeeds exactly when the id is a key; on failure the state is unchanged and the error carries the update message; on success the record takes the payload's jam with a recomputed status and get returns it; the counter never moves; RentalLemmas.UpdatePresent and RentalLemmas.UpdateAbsent give the full effect |
| RentalStore.Delete | src/icp_rust_boilerplate_backend/src/lib.rs:132-142 | delete succeeds exactly when the id is a key and returns the record stored there; afterwards the id is not a key; on failure the state is unchanged and the error carries the delete message; other ids and the counter are untouched (RentalLemmas.DeleteEffect) |
| RentalStore.Listed | src/icp_rust_boilerplate_backend/src/lib.rs:145-158 | show_list's result holds only stored records whose court is A, B or C and is no longer than the map; RentalLemmas.ListedExact adds ascending id order and that every such record appears |
| Messages.Decimal | src/icp_rust_boilerplate_backend/src/lib.rs:66 | the `{}` text of a u64: non-empty, digits only, no leading zero; Messages.DecimalRoundTrip proves parsing it gives the number back |
| Messages.GetNotFoundMsg | src/icp_rust_boilerplate_backend/src/lib.rs:66 | the get failure text is "a rental with id=", the id in decimal, then " not found", and the id can be read back from it (Messages.NotFoundMsgNamesId: distinct ids, distinct messages) |
| Messages.UpdateNotFoundMsg | src/icp_rust_boilerplate_backend/src/lib.rs:119-122 | the update failure text is "couldn't update a rental with id=", the id in decimal, then ". rental not found", and the id can be read back from it |
| Messages.DeleteNotFoundMsg | src/icp_rust_boilerplate_backend/src/lib.rs:136-139 | the delete failure text is "couldn't delete a rental with id=", the id in decimal, then ". rental not found.", and the id can be read back from it |
| RentalLemmas.AddEffect | src/icp_rust_boilerplate_backend/src/lib.rs:72-97 | add returns a record whose id is the old counter, which no stored record uses; name, date, jam and court come from the payload; status is "lunas" iff jam >= 17; get on the id returns it; the counter grows by exactly 1; every other id is unaffected; the invariant holds after |
| RentalLemmas.FirstIdIsZero | src/icp_rust_boilerplate_backend/src/lib.rs:73-78 | on a fresh canister the first id handed out is 0, because Cell::set returns the replaced value |
| RentalLemmas.UpdateAbsent | src/icp_rust_boilerplate_backend/src/lib.rs:118-123 | updating an absent id returns NotFound with the update message and leaves the map and counter unchanged |
| RentalLemmas.UpdatePresent | src/icp_rust_boilerplate_backend/src/lib.rs:101-116 | updating a present id keeps the id, takes the payload's four fields, recomputes the status from the new jam, stores and returns that record, and leaves the counter and all other ids unchanged |
| RentalLemmas.DeleteEffect | src/icp_rust_boilerplate_backend/src/lib.rs:132-142 | delete succeeds exactly when the id is a key and returns the stored record; afterwards get on the id fails; an absent id gives the delete message and no change; other ids and the counter are untouched |
| RentalLemmas.OrderedIsTheStore | src/icp_rust_boilerplate_backend/src/lib.rs:148 | under the invariant the iterated records are sorted by id and are exactly the stored records |
| RentalLemmas.ListedExact | src/icp_rust_boilerplate_backend/src/lib.rs:145-158 | show_list returns, in ascending id order, exactly the stored records of court A, B or C, and at most as many records as are stored |
| RentalLemmas.UnlistedCourtStillFound | src/icp_rust_boilerplate_backend/src/lib.rs:149-153 | a stored record with another court letter is missing from show_list but still returned by get |
| RentalLemmas.FreshCanisterSession | src/icp_rust_boilerplate_backend/src/lib.rs:72-142 | a concrete session: add at hour 18 gives id 0, "lunas", listed; update to hour 10 gives "belum" under id 0; delete returns it; get then fails with "a rental with id=0 not found" |
| RentalHistory.Step | src/icp_rust_boilerplate_backend/src/lib.rs:73-78 | only an add moves the counter, by exactly 1; no entry point decrements or resets it |
| RentalHistory.StepPreservesValid | src/icp_rust_boilerplate_backend/src/lib.rs:127-129 | every entry point keeps the invariant (records keyed by their own id, below the counter, status consistent with jam) |
| RentalHistory.RunCounter | src/icp_rust_boilerplate_backend/src/lib.rs:73-78 | over any run of calls the counter grows by exactly the number of adds |
| RentalHistory.RunPreservesValid | src/icp_rust_boilerplate_backend/src/lib.rs:127-129 | every run of calls keeps the invariant |
| RentalHistory.IssuedIdsIncrease | src/icp_rust_boilerplate_backend/src/lib.rs:73-78 | the ids handed out by the adds of a run strictly increase, one per add, between the counter before and after the run |
| RentalHistory.IdsNeverReused | src/icp_rust_boilerplate_backend/src/lib.rs:73-95 | after any run, deletes included, an add gets an id that no earlier add returned and that is not a key, so it never overwrites a record |
| Canister.BasketRentalCanister.constructor | src/icp_rust_boilerplate_backend/src/lib.rs:42-50 | the counter cell starts at 0 and the map empty |
| Canister.BasketRentalCanister.SetCounter | src/icp_rust_boilerplate_backend/src/lib.rs:76 | Cell::set writes the new value and returns the value it replaced; the map is untouched |
| Canister.BasketRentalCanister.LookupBasketRental | src/icp_rust_boilerplate_backend/src/lib.rs:165-167 | the lookup is Some exactly when the id is a key, holding the stored record |
| Canister.BasketRentalCanister.GetBasketRental | src/icp_rust_boilerplate_backend/src/lib.rs:62-69 | the method returns what RentalStore.Get specifies and changes nothing |
| Canister.BasketRentalCanister.DoInsert | src/icp_rust_boilerplate_backend/src/lib.rs:127-129 | the record is stored under its own id; nothing else changes |
| Canister.BasketRentalCanister.AddBasketRental | src/icp_rust_boilerplate_backend/src/lib.rs:72-97 | the result is always Some; the new state and record are those of RentalStore.Add; the id is the old counter and was not a key; the counter grows by 1; the invariant is kept |
| Canister.BasketRentalCanister.UpdateBasketRental | src/icp_rust_boilerplate_backend/src/lib.rs:100-125 | the new state and result are those of RentalStore.Update; success exactly when the id was a key; on failure the map is unchanged; the counter never changes; the invariant is kept |
| Canister.BasketRentalCanister.RemoveEntry | src/icp_rust_boilerplate_backend/src/lib.rs:133 | the map's remove returns the entry that was under the id, if any, and drops exactly that key |
| Canister.BasketRentalCanister.DeleteBasketRental | src/icp_rust_boilerplate_backend/src/lib.rs:132-142 | the new state and result are those of RentalStore.Delete; the id is absent afterwards; the counter is unchanged; the invariant is kept |
| Canister.BasketRentalCanister.ShowList | src/icp_rust_boilerplate_backend/src/lib.rs:145-158 | the loop over the map in key order returns RentalStore.Listed of the current state, whose meaning RentalLemmas.ListedExact gives; it changes nothing |

## Left out

- Candid encoding and decoding of records (`to_bytes`, `from_bytes`) and the 1024-byte `MAX_SIZE` bound: they depend on the Candid library, which is not part of this model. The map holds record values directly. In the source, storing a record whose encoding is over the bound fails inside the library and aborts the add or update; in the model `Add`, `Update` and their methods succeed for a name of any length.
- `MemoryManager`, virtual memory regions and stable-memory persistence across upgrades: the counter and the map are plain fields, and reattaching them after an upgrade is not modelled.
- The B-tree inside `StableBTreeMap` and the storage of `Cell`: a Dafny `map` and an integer field stand for them. The one library behaviour pinned down is `Cell::set` returning the replaced value (`SetCounter`).
- The `#[ic_cdk::query]` and `#[ic_cdk::update]` bindings, `export_candid!` and the unused `time` import: RPC plumbing with no effect on the state.
- `RefCell` borrowing: the host runs one call at a time, so the methods run to completion without interleaving.
- AddBasketRental: requires the counter to be below the largest `u64`. At that value `current_value + 1` is a plain `u64` addition: it panics when overflow checks are on and wraps to 0 when they are off (the default for release builds). After a wrap, `set(0)` returns the largest `u64` as the id and later adds hand out 0, 1, … again, overwriting live records. The requires excludes the wrap; neither outcome is modelled.
- RentalStore.Add: carries the same requires, and so do `RentalHistory.Runnable` and `RentalHistory.IdsNeverReused`. The "ids are never reused" property holds only because the wrap is excluded.
- The `expect` failures of the counter's initialisation and of `Cell::set`: these are storage faults that abort the call, and the model has no storage faults.
- `update_basket_rental` re-inserts under the record's own `id` field rather than the requested key; under the invariant these are equal, and the lemmas about a present id assume the invariant.
