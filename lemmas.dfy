/** What each entry point does to the state, stated through the observable
    results of `get_basket_rental` and `show_list`. */
module RentalLemmas {
  import opened RentalTypes
  import opened Messages
  import opened RentalStore

  /** `add_basket_rental` hands out the counter's old value as the id,
      derives the status from the hour, copies the payload, never
      overwrites a stored record and leaves every other id as it was. */
  lemma AddEffect(s: State, p: BasketRentalPayload)
    requires Valid(s)
    requires s.counter < U64_MAX
    ensures var (s', r) := Add(s, p);
      && Valid(s')
      && r.id == s.counter
      && s'.counter == s.counter + 1
      && r.id !in s.store
      && r.namaPeminjam == p.namaPeminjam && r.tanggalPinjam == p.tanggalPinjam
      && r.jam == p.jam && r.tipeLapangan == p.tipeLapangan
      && (r.status == "lunas" <==> p.jam >= 17)
      && (r.status == "belum" <==> p.jam < 17)
      && Get(s', r.id) == Ok(r)
      && (forall k :: k != r.id ==> Get(s', k) == Get(s, k))
  {
  }

  /** The first add on a fresh canister gets id 0, since the counter starts
      at 0 and the id is the value before the increment. */
  lemma FirstIdIsZero(p: BasketRentalPayload)
    ensures Add(Init(), p).1.id == 0
  {
  }

  /** An update of an absent id fails with the update message and changes nothing. */
  lemma UpdateAbsent(s: State, id: U64, p: BasketRentalPayload)
    requires id !in s.store
    ensures Update(s, id, p) == (s, Err(NotFound(UpdateNotFoundMsg(id))))
  {
  }

  /** An update of a present id keeps the id, takes the payload's fields,
      recomputes the status, stores and returns the same record, and leaves
      the counter and every other id alone. */
  lemma UpdatePresent(s: State, id: U64, p: BasketRentalPayload)
    requires Valid(s)
    requires id in s.store
    ensures var (s', r) := Update(s, id, p);
      && Valid(s')
      && r.Ok?
      && r.value.id == id
      && r.value.namaPeminjam == p.namaPeminjam && r.value.tanggalPinjam == p.tanggalPinjam
      && r.value.jam == p.jam && r.value.tipeLapangan == p.tipeLapangan
      && (r.value.status == "lunas" <==> p.jam >= 17)
      && (r.value.status == "belum" <==> p.jam < 17)
      && Get(s', id) == r
      && s'.counter == s.counter
      && (forall k :: k != id ==> Get(s', k) == Get(s, k))
  {
  }

  /** A delete returns what was stored under the id and removes it; an
      absent id fails with the delete message and changes nothing. Other ids
      and the counter are untouched either way. */
  lemma DeleteEffect(s: State, id: U64)
    requires Valid(s)
    ensures var (s', r) := Delete(s, id);
      && Valid(s')
      && (r.Ok? <==> id in s.store)
      && (r.Ok? ==> r.value == s.store[id])
      && (r.Err? ==> s' == s && r.error == NotFound(DeleteNotFoundMsg(id)))
      && Get(s', id) == Err(NotFound(GetNotFoundMsg(id)))
      && s'.counter == s.counter
      && (forall k :: k != id ==> Get(s', k) == Get(s, k))
  {
  }

  /** The i-th record in key order sits under the i-th smallest key. */
  lemma OrderedAt(s: State, i: int)
    requires Valid(s)
    requires 0 <= i < |Ordered(s.store)|
    ensures var k := SortedKeys(s.store.Keys)[i];
      k in s.store && Ordered(s.store)[i] == s.store[k] && Ordered(s.store)[i].id == k
  {
  }

  /** The stored records in key order are sorted by id and are exactly the
      map's records. */
  lemma {:induction false} OrderedIsTheStore(s: State)
    requires Valid(s)
    ensures SortedById(Ordered(s.store))
    ensures forall x :: x in Ordered(s.store) ==> x.id in s.store && s.store[x.id] == x
    ensures forall k :: k in s.store ==> s.store[k] in Ordered(s.store)
  {
    var ks := SortedKeys(s.store.Keys);
    var rs := Ordered(s.store);
    forall i, j | 0 <= i < j < |rs|
      ensures rs[i].id < rs[j].id
    {
      OrderedAt(s, i);
      OrderedAt(s, j);
    }
    forall x | x in rs
      ensures x.id in s.store && s.store[x.id] == x
    {
      var i :| 0 <= i < |rs| && rs[i] == x;
      OrderedAt(s, i);
    }
    forall k | k in s.store
      ensures s.store[k] in rs
    {
      assert k in ks;
      var i :| 0 <= i < |ks| && ks[i] == k;
      OrderedAt(s, i);
    }
  }

  /** `show_list` returns, in ascending id order, exactly the stored records
      whose court letter is A, B or C, and never more records than are stored. */
  lemma {:induction false} ListedExact(s: State)
    requires Valid(s)
    ensures |Listed(s)| <= |s.store|
    ensures SortedById(Listed(s))
    ensures forall x :: x in Listed(s) ==>
      x.id in s.store && s.store[x.id] == x && IsListedCourt(x.tipeLapangan)
    ensures forall k :: k in s.store ==>
      (s.store[k] in Listed(s) <==> IsListedCourt(s.store[k].tipeLapangan))
  {
    OrderedIsTheStore(s);
    KeepListedSorted(Ordered(s.store));
    KeepListedMembers(Ordered(s.store));
    assert |s.store| == |s.store.Keys|;
  }

  /** A record of another court letter is left out of the listing although
      `get_basket_rental` still returns it. */
  lemma {:induction false} UnlistedCourtStillFound(s: State, id: U64)
    requires Valid(s)
    requires id in s.store && !IsListedCourt(s.store[id].tipeLapangan)
    ensures s.store[id] !in Listed(s)
    ensures Get(s, id) == Ok(s.store[id])
  {
    ListedExact(s);
  }

  /** A session on a fresh canister: Ana books court A at 18:00 and gets
      id 0, paid; the listing shows her booking; moving it to 10:00 makes it
      unpaid under the same id; deleting returns it and a later lookup fails. */
  lemma FreshCanisterSession()
    ensures var p := BasketRentalPayload("Ana", 20240101, 18, 'A');
      var (s1, r1) := Add(Init(), p);
      var (s2, r2) := Update(s1, 0, p.(jam := 10));
      var (s3, r3) := Delete(s2, 0);
      && r1 == BasketRental(0, "Ana", 20240101, 18, 'A', "lunas")
      && Listed(s1) == [r1]
      && r2 == Ok(BasketRental(0, "Ana", 20240101, 10, 'A', "belum"))
      && r3 == r2
      && Get(s3, 0) == Err(NotFound("a rental with id=0 not found"))
  {
    var p := BasketRentalPayload("Ana", 20240101, 18, 'A');
    var (s1, r1) := Add(Init(), p);
    assert SortedKeys({0}) == [0] by {
      assert MinKey({0}) == 0;
      assert {0} - {0} == {};
    }
    assert s1.store.Keys == {0};
    assert Ordered(s1.store) == [r1];
    assert Decimal(0) == "0";
    assert GetNotFoundMsg(0) == "a rental with id=0 not found";
  }
}
