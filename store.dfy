/** The canister's state as a value (the id counter and the ordered map
    from id to record) and the effect of each entry point on it. */
module RentalStore {
  import opened RentalTypes
  import opened Messages

  /** `ID_COUNTER` and `STORAGE` taken together. */
  datatype State = State(counter: U64, store: map<U64, BasketRental>)

  /** What every entry point keeps true: each record sits under its own id,
      below the counter (so the counter never hands out a stored id), and
      carries the status its hour calls for. */
  ghost predicate Valid(s: State)
  {
    forall k :: k in s.store ==>
      && s.store[k].id == k
      && k < s.counter
      && s.store[k].status == StatusFor(s.store[k].jam)
  }

  /** A fresh canister: counter 0, empty map. */
  function Init(): (s: State)
    ensures Valid(s)
    ensures s.counter == 0 && |s.store| == 0
  {
    State(0, map[])
  }

  /** `get_basket_rental`. */
  function Get(s: State, id: U64): (r: Result<BasketRental>)
    ensures r.Ok? <==> id in s.store
    ensures r.Ok? ==> r.value == s.store[id]
    ensures r.Err? ==> r.error == NotFound(GetNotFoundMsg(id))
  {
    if id in s.store then Ok(s.store[id]) else Err(NotFound(GetNotFoundMsg(id)))
  }

  /** `add_basket_rental`: the id is the counter's value before the increment. */
  function Add(s: State, p: BasketRentalPayload): (res: (State, BasketRental))
    requires s.counter < U64_MAX
    ensures res.1.id == s.counter && res.0.counter == s.counter + 1
    ensures res.1.jam == p.jam && res.1.status == StatusFor(p.jam)
    ensures Get(res.0, res.1.id) == Ok(res.1)
    ensures forall k :: k != res.1.id ==> Get(res.0, k) == Get(s, k)
  {
    var rental := BasketRental(s.counter, p.namaPeminjam, p.tanggalPinjam, p.jam,
                               p.tipeLapangan, StatusFor(p.jam));
    (State(s.counter + 1, s.store[rental.id := rental]), rental)
  }

  /** `update_basket_rental`: the stored record keeps its id and takes the
      payload's four fields; `do_insert` re-keys it by that id. */
  function Update(s: State, id: U64, p: BasketRentalPayload): (res: (State, Result<BasketRental>))
    ensures res.1.Ok? <==> id in s.store
    ensures res.1.Err? ==> res.0 == s && res.1.error == NotFound(UpdateNotFoundMsg(id))
    ensures res.1.Ok? ==> res.1.value.jam == p.jam && res.1.value.status == StatusFor(p.jam)
    ensures res.1.Ok? ==> Get(res.0, res.1.value.id) == res.1
    ensures res.0.counter == s.counter
  {
    if id in s.store then
      var rental := s.store[id].(namaPeminjam := p.namaPeminjam,
                                 tanggalPinjam := p.tanggalPinjam,
                                 jam := p.jam,
                                 tipeLapangan := p.tipeLapangan,
                                 status := StatusFor(p.jam));
      (State(s.counter, s.store[rental.id := rental]), Ok(rental))
    else
      (s, Err(NotFound(UpdateNotFoundMsg(id))))
  }

  /** `delete_basket_rental`. */
  function Delete(s: State, id: U64): (res: (State, Result<BasketRental>))
    ensures res.1.Ok? <==> id in s.store
    ensures res.1.Ok? ==> res.1.value == s.store[id]
    ensures res.1.Err? ==> res.0 == s && res.1.error == NotFound(DeleteNotFoundMsg(id))
    ensures id !in res.0.store && res.0.counter == s.counter
    ensures forall k :: k != id ==> Get(res.0, k) == Get(s, k)
  {
    if id in s.store then (State(s.counter, s.store - {id}), Ok(s.store[id]))
    else (s, Err(NotFound(DeleteNotFoundMsg(id))))
  }

  // ---------------------------------------------------------------------
  // Ascending iteration over the map and the `show_list` filter
  // ---------------------------------------------------------------------

  /** A smallest key of a non-empty set of keys, found by induction on the set. */
  ghost function SmallestKey(keys: set<U64>): (m: U64)
    requires keys != {}
    ensures m in keys && forall k :: k in keys ==> m <= k
  {
    var x :| x in keys;
    var rest := keys - {x};
    if rest == {} then
      assert forall k :: k in keys ==> k == x by {
        forall k | k in keys ensures k == x { assert k != x ==> k in rest; }
      }
      x
    else
      var r := SmallestKey(rest);
      assert forall k :: k in keys ==> k == x || k in rest;
      if x < r then x else r
  }

  /** The smallest key of a non-empty set of keys. */
  function MinKey(keys: set<U64>): (m: U64)
    requires keys != {}
    ensures m in keys && forall k :: k in keys ==> m <= k
  {
    assert SmallestKey(keys) in keys;
    var m :| m in keys && forall k :: k in keys ==> m <= k; m
  }

  /** The keys in ascending order, as the map's iterator yields them. */
  function SortedKeys(keys: set<U64>): (ks: seq<U64>)
    ensures |ks| == |keys|
    ensures forall k :: k in ks <==> k in keys
    ensures forall i, j :: 0 <= i < j < |ks| ==> ks[i] < ks[j]
  {
    if keys == {} then []
    else
      var m := MinKey(keys);
      [m] + SortedKeys(keys - {m})
  }

  /** The stored records in ascending key order. */
  function Ordered(m: map<U64, BasketRental>): (rs: seq<BasketRental>)
    ensures |rs| == |m.Keys|
    ensures forall i :: 0 <= i < |rs| ==> rs[i] == m[SortedKeys(m.Keys)[i]]
  {
    var ks := SortedKeys(m.Keys);
    seq(|ks|, i requires 0 <= i < |ks| => m[ks[i]])
  }

  /** The records of a listed court, in their original order. */
  function KeepListed(rs: seq<BasketRental>): (r: seq<BasketRental>)
    ensures |r| <= |rs|
  {
    if rs == [] then []
    else
      var last := rs[|rs| - 1];
      KeepListed(rs[..|rs| - 1]) + (if IsListedCourt(last.tipeLapangan) then [last] else [])
  }

  /** The filter keeps a record exactly when its court is listed. */
  lemma {:induction false} KeepListedMembers(rs: seq<BasketRental>)
    ensures forall x :: x in KeepListed(rs) ==> x in rs && IsListedCourt(x.tipeLapangan)
    ensures forall x :: x in rs && IsListedCourt(x.tipeLapangan) ==> x in KeepListed(rs)
  {
    if rs != [] {
      var init := rs[..|rs| - 1];
      KeepListedMembers(init);
      assert rs == init + [rs[|rs| - 1]];
    }
  }

  /** Scanning one more record adds it exactly when its court is listed. */
  lemma KeepListedStep(rs: seq<BasketRental>, i: int)
    requires 0 <= i < |rs|
    ensures KeepListed(rs[..i + 1])
         == KeepListed(rs[..i]) + (if IsListedCourt(rs[i].tipeLapangan) then [rs[i]] else [])
  {
    assert rs[..i + 1][..i] == rs[..i];
  }

  /** Every record met in key order is a stored record. */
  lemma OrderedValues(m: map<U64, BasketRental>)
    ensures forall x :: x in Ordered(m) ==> x in m.Values
  {
    var ks := SortedKeys(m.Keys);
    forall x | x in Ordered(m)
      ensures x in m.Values
    {
      var i :| 0 <= i < |Ordered(m)| && Ordered(m)[i] == x;
      assert ks[i] in ks;
    }
  }

  /** `show_list`: only stored records of a listed court, at most one per key. */
  function Listed(s: State): (r: seq<BasketRental>)
    ensures |r| <= |s.store|
    ensures forall x :: x in r ==> x in s.store.Values && IsListedCourt(x.tipeLapangan)
  {
    KeepListedMembers(Ordered(s.store));
    OrderedValues(s.store);
    assert |s.store| == |s.store.Keys|;
    KeepListed(Ordered(s.store))
  }

  predicate SortedById(rs: seq<BasketRental>)
  {
    forall i, j :: 0 <= i < j < |rs| ==> rs[i].id < rs[j].id
  }

  lemma {:induction false} KeepListedSorted(rs: seq<BasketRental>)
    requires SortedById(rs)
    ensures SortedById(KeepListed(rs))
  {
    if rs != [] {
      var init, last := rs[..|rs| - 1], rs[|rs| - 1];
      KeepListedSorted(init);
      KeepListedMembers(init);
      forall x | x in KeepListed(init)
        ensures x.id < last.id
      {
        var i :| 0 <= i < |init| && init[i] == x;
        assert rs[i] == x;
      }
    }
  }
}
