/** The canister itself: the id counter cell and the ordered storage map as
    fields updated in place, and the entry points as methods. Each method is
    proved to have exactly the effect that the matching function of
    `RentalStore` describes. */
module Canister {
  import opened RentalTypes
  import opened Messages
  import opened RentalStore

  class BasketRentalCanister {
    /** `ID_COUNTER`: the next id to hand out. */
    var idCounter: U64
    /** `STORAGE`: records keyed by id. */
    var storage: map<U64, BasketRental>

    /** The fields as a `RentalStore.State` value. */
    function Snapshot(): State
      reads this
    {
      State(idCounter, storage)
    }

    ghost predicate Valid()
      reads this
    {
      RentalStore.Valid(Snapshot())
    }

    /** Both cells start empty: the counter at 0, the map with no entry. */
    constructor ()
      ensures Valid()
      ensures Snapshot() == Init()
    {
      idCounter := 0;
      storage := map[];
    }

    /** `Cell::set` of ic-stable-structures: stores the new value and returns
        the value it replaced. */
    method SetCounter(value: U64) returns (previous: U64)
      modifies this
      ensures previous == old(idCounter)
      ensures idCounter == value && storage == old(storage)
    {
      previous := idCounter;
      idCounter := value;
    }

    /** `_get_basket_rental`: a plain lookup in the storage map. */
    function LookupBasketRental(id: U64): (r: Option<BasketRental>)
      reads this
      ensures r.Some? <==> id in storage
      ensures r.Some? ==> r.value == storage[id]
    {
      if id in storage then Some(storage[id]) else None
    }

    /** `get_basket_rental`. */
    method GetBasketRental(id: U64) returns (r: Result<BasketRental>)
      ensures r == Get(Snapshot(), id)
    {
      match LookupBasketRental(id)
      case Some(rental) =>
        r := Ok(rental);
      case None =>
        r := Err(NotFound(GetNotFoundMsg(id)));
    }

    /** `do_insert`: stores the record under its own id. */
    method DoInsert(rental: BasketRental)
      modifies this
      ensures storage == old(storage)[rental.id := rental]
      ensures idCounter == old(idCounter)
    {
      storage := storage[rental.id := rental];
    }

    /** `add_basket_rental`. The counter must be below the largest `u64`:
        there `current_value + 1` panics or wraps to 0, depending on whether
        the build checks overflow, and a wrap would hand out ids again. */
    method AddBasketRental(payload: BasketRentalPayload) returns (r: Option<BasketRental>)
      requires Valid()
      requires idCounter < U64_MAX
      modifies this
      ensures Valid()
      ensures r.Some?
      ensures (Snapshot(), r.value) == Add(old(Snapshot()), payload)
      ensures idCounter == old(idCounter) + 1
      ensures r.value.id == old(idCounter) && r.value.id !in old(storage)
    {
      var currentValue := idCounter;
      // The id is what `Cell::set` returns, which in ic-stable-structures is
      // the value it replaced: the counter before the increment, not after.
      var id := SetCounter(currentValue + 1);
      var status := StatusFor(payload.jam);
      var rental := BasketRental(id, payload.namaPeminjam, payload.tanggalPinjam,
                                 payload.jam, payload.tipeLapangan, status);
      DoInsert(rental);
      r := Some(rental);
    }

    /** `update_basket_rental`. */
    method UpdateBasketRental(id: U64, payload: BasketRentalPayload)
      returns (r: Result<BasketRental>)
      requires Valid()
      modifies this
      ensures Valid()
      ensures (Snapshot(), r) == Update(old(Snapshot()), id, payload)
      ensures r.Ok? <==> id in old(storage)
      ensures r.Err? ==> storage == old(storage)
      ensures idCounter == old(idCounter)
    {
      match LookupBasketRental(id)
      case Some(rental) =>
        var updated := rental.(namaPeminjam := payload.namaPeminjam,
                               tanggalPinjam := payload.tanggalPinjam,
                               jam := payload.jam,
                               tipeLapangan := payload.tipeLapangan);
        updated := updated.(status := StatusFor(updated.jam));
        DoInsert(updated);
        r := Ok(updated);
      case None =>
        r := Err(NotFound(UpdateNotFoundMsg(id)));
    }

    /** `StableBTreeMap::remove`: takes the entry out and returns it. */
    method RemoveEntry(id: U64) returns (removed: Option<BasketRental>)
      modifies this
      ensures removed == if id in old(storage) then Some(old(storage)[id]) else None
      ensures storage == old(storage) - {id}
      ensures idCounter == old(idCounter)
    {
      removed := LookupBasketRental(id);
      storage := storage - {id};
    }

    /** `delete_basket_rental`. */
    method DeleteBasketRental(id: U64) returns (r: Result<BasketRental>)
      requires Valid()
      modifies this
      ensures Valid()
      ensures (Snapshot(), r) == Delete(old(Snapshot()), id)
      ensures id !in storage
      ensures idCounter == old(idCounter)
    {
      var removed := RemoveEntry(id);
      match removed
      case Some(rental) =>
        r := Ok(rental);
      case None =>
        r := Err(NotFound(DeleteNotFoundMsg(id)));
        assert storage == old(storage);
    }

    /** `show_list`: walks the records in ascending key order and keeps
        those of court A, B or C. */
    method ShowList() returns (result: seq<BasketRental>)
      ensures result == Listed(Snapshot())
    {
      result := [];
      var entries := Ordered(storage);
      for i := 0 to |entries|
        invariant result == KeepListed(entries[..i])
      {
        var rental := entries[i];
        KeepListedStep(entries, i);
        match rental.tipeLapangan
        case 'A' | 'B' | 'C' => result := result + [rental];
        case _ =>
      }
      assert entries[..|entries|] == entries;
    }
  }
}
