/** Values exchanged by the basketball-court rental canister: the stored
    record, the client payload, the error type and the derived status. */
module RentalTypes {

  /** Largest value of a Rust `u64`. */
  const U64_MAX: int := 0xFFFF_FFFF_FFFF_FFFF

  /** An unsigned 64-bit integer. */
  type U64 = x: int | 0 <= x <= U64_MAX

  /** Hour from which a booking counts as paid. */
  const PAID_FROM_HOUR: int := 17

  /** One court booking, keyed in storage by `id`. */
  datatype BasketRental = BasketRental(
    id: U64,
    namaPeminjam: string,    // borrower's name
    tanggalPinjam: U64,      // booking date, an opaque timestamp
    jam: U64,                // booked hour, never range-checked
    tipeLapangan: char,      // court letter, never validated on write
    status: string           // "lunas" (paid) or "belum" (unpaid), derived from jam
  )

  /** What a client sends to create or replace a booking. */
  datatype BasketRentalPayload = BasketRentalPayload(
    namaPeminjam: string,
    tanggalPinjam: U64,
    jam: U64,
    tipeLapangan: char
  )

  /** The canister's only error kind. */
  datatype Error = NotFound(msg: string)

  datatype Option<T> = None | Some(value: T)

  datatype Result<T> = Ok(value: T) | Err(error: Error)

  /** The payment status derived from the booked hour. */
  function StatusFor(jam: U64): (s: string)
    ensures s == "lunas" <==> jam >= PAID_FROM_HOUR
    ensures s == "belum" <==> jam < PAID_FROM_HOUR
  {
    if jam >= PAID_FROM_HOUR then "lunas" else "belum"
  }

  /** The court letters that the listing shows. */
  predicate IsListedCourt(c: char)
  {
    c == 'A' || c == 'B' || c == 'C'
  }
}
