/** The text of the `NotFound` errors, which embed the requested id written
    in decimal as Rust's `format!("{}", id)` prints a `u64`. */
module Messages {
  import opened RentalTypes

  predicate IsDigit(c: char)
  {
    '0' <= c <= '9'
  }

  function DigitChar(d: nat): (c: char)
    requires d < 10
    ensures IsDigit(c)
  {
    (48 + d) as char
  }

  function DigitValue(c: char): (d: nat)
    requires IsDigit(c)
    ensures d < 10
  {
    c as int - 48
  }

  /** Decimal text of `n`: most significant digit first, no leading zeros. */
  function Decimal(n: nat): (s: string)
    ensures |s| >= 1
    ensures forall i :: 0 <= i < |s| ==> IsDigit(s[i])
    ensures |s| > 1 ==> s[0] != '0'
  {
    if n < 10 then [DigitChar(n)] else Decimal(n / 10) + [DigitChar(n % 10)]
  }

  /** The value of a string of decimal digits; the inverse of `Decimal`. */
  function ParseDecimal(s: string): nat
    requires forall i :: 0 <= i < |s| ==> IsDigit(s[i])
  {
    if s == [] then 0 else ParseDecimal(s[..|s| - 1]) * 10 + DigitValue(s[|s| - 1])
  }

  lemma {:induction false} DecimalRoundTrip(n: nat)
    ensures ParseDecimal(Decimal(n)) == n
  {
    var s := Decimal(n);
    if n >= 10 {
      DecimalRoundTrip(n / 10);
      assert s[..|s| - 1] == Decimal(n / 10);
      assert DigitValue(s[|s| - 1]) == n % 10;
    }
  }

  /** `m` is `prefix`, then the decimal text of `id`, then `suffix`: the id
      can be read back from the message. */
  predicate NamesId(m: string, prefix: string, suffix: string, id: nat)
  {
    && |prefix| + |suffix| < |m|
    && m[..|prefix|] == prefix
    && m[|m| - |suffix|..] == suffix
    && (forall i :: |prefix| <= i < |m| - |suffix| ==> IsDigit(m[i]))
    && ParseDecimal(m[|prefix|..|m| - |suffix|]) == id
  }

  lemma WrappedNamesId(prefix: string, id: nat, suffix: string)
    ensures NamesId(prefix + Decimal(id) + suffix, prefix, suffix, id)
  {
    var m := prefix + Decimal(id) + suffix;
    assert m[|prefix|..|m| - |suffix|] == Decimal(id);
    assert m[..|prefix|] == prefix;
    assert m[|m| - |suffix|..] == suffix;
    DecimalRoundTrip(id);
  }

  /** A message that names an id names only that one. */
  lemma NamesOneId(m: string, prefix: string, suffix: string, a: nat, b: nat)
    requires NamesId(m, prefix, suffix, a) && NamesId(m, prefix, suffix, b)
    ensures a == b
  {
  }

  const GET_PREFIX: string := "a rental with id="
  const GET_SUFFIX: string := " not found"
  const UPDATE_PREFIX: string := "couldn't update a rental with id="
  const UPDATE_SUFFIX: string := ". rental not found"
  const DELETE_PREFIX: string := "couldn't delete a rental with id="
  const DELETE_SUFFIX: string := ". rental not found."

  /** The message of a failed `get_basket_rental`. */
  function GetNotFoundMsg(id: U64): (m: string)
    ensures NamesId(m, GET_PREFIX, GET_SUFFIX, id)
  {
    WrappedNamesId(GET_PREFIX, id, GET_SUFFIX);
    GET_PREFIX + Decimal(id) + GET_SUFFIX
  }

  /** The message of a failed `update_basket_rental`. */
  function UpdateNotFoundMsg(id: U64): (m: string)
    ensures NamesId(m, UPDATE_PREFIX, UPDATE_SUFFIX, id)
  {
    WrappedNamesId(UPDATE_PREFIX, id, UPDATE_SUFFIX);
    UPDATE_PREFIX + Decimal(id) + UPDATE_SUFFIX
  }

  /** The message of a failed `delete_basket_rental`. */
  function DeleteNotFoundMsg(id: U64): (m: string)
    ensures NamesId(m, DELETE_PREFIX, DELETE_SUFFIX, id)
  {
    WrappedNamesId(DELETE_PREFIX, id, DELETE_SUFFIX);
    DELETE_PREFIX + Decimal(id) + DELETE_SUFFIX
  }

  /** Each `NotFound` message names the id it was raised for: distinct ids
      give distinct messages, for every one of the three operations. */
  lemma NotFoundMsgNamesId(a: U64, b: U64)
    ensures GetNotFoundMsg(a) == GetNotFoundMsg(b) ==> a == b
    ensures UpdateNotFoundMsg(a) == UpdateNotFoundMsg(b) ==> a == b
    ensures DeleteNotFoundMsg(a) == DeleteNotFoundMsg(b) ==> a == b
  {
    if GetNotFoundMsg(a) == GetNotFoundMsg(b) {
      NamesOneId(GetNotFoundMsg(a), GET_PREFIX, GET_SUFFIX, a, b);
    }
    if UpdateNotFoundMsg(a) == UpdateNotFoundMsg(b) {
      NamesOneId(UpdateNotFoundMsg(a), UPDATE_PREFIX, UPDATE_SUFFIX, a, b);
    }
    if DeleteNotFoundMsg(a) == DeleteNotFoundMsg(b) {
      NamesOneId(DeleteNotFoundMsg(a), DELETE_PREFIX, DELETE_SUFFIX, a, b);
    }
  }
}
