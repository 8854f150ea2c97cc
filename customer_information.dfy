/**
 * The `CustomerInformation` record of the ticketing system: an object whose
 * id, name and ticket count never change after construction, and whose
 * assigned counter and paid flag are updated in place.
 */
module Customers {
  import opened JavaInt

  /**
   * The static field `CustomerInformation.nextCustomerId`. Dafny has no
   * static mutable state, so the one process-wide generator is an object the
   * constructor is handed.
   */
  class CustomerIdGenerator {
    var nextCustomerId: Int32

    constructor ()
      ensures nextCustomerId == 1
    {
      nextCustomerId := 1;
    }
  }

  class CustomerInformation {
    const custId: Int32
    const custName: string
    const ticketsPurchased: Int32
    /** The counter the customer is assigned to; -1 until `SetCounter`. */
    var counter: Int32
    var paid: bool

    /** Takes the generator's current value as the id and advances the generator by one. */
    constructor (ids: CustomerIdGenerator, custName: string, ticketsPurchased: Int32)
      modifies ids
      ensures custId == old(ids.nextCustomerId)
      ensures ids.nextCustomerId == Increment(old(ids.nextCustomerId))
      ensures this.custName == custName && this.ticketsPurchased == ticketsPurchased
      ensures counter == -1 && !paid
    {
      custId := ids.nextCustomerId;
      this.custName := custName;
      this.ticketsPurchased := ticketsPurchased;
      counter := -1;
      paid := false;
      new;
      ids.nextCustomerId := Increment(ids.nextCustomerId);
    }

    method SetCounter(counter: Int32)
      modifies this`counter
      ensures this.counter == counter
    {
      this.counter := counter;
    }

    method MarkAsPaid()
      modifies this`paid
      ensures paid
    {
      paid := true;
    }

    method MarkAsUnpaid()
      modifies this`paid
      ensures !paid
    {
      paid := false;
    }
  }

  /**
   * The ids that `n` constructions in a row hand out when the generator
   * starts at `next`. Like Java's single static field, this assumes that
   * every construction is handed the same generator.
   */
  function IssuedIds(next: Int32, n: nat): (ids: seq<Int32>)
    ensures |ids| == n
    ensures n > 0 ==> ids[0] == next
    decreases n
  {
    if n == 0 then [] else [next] + IssuedIds(Increment(next), n - 1)
  }

  /** Until the generator reaches the largest int, successive ids are consecutive, hence strictly increasing. */
  lemma {:induction false} IssuedIdsConsecutive(next: Int32, n: nat)
    requires next + n - 1 <= MAX_INT32
    ensures |IssuedIds(next, n)| == n
    ensures forall i :: 0 <= i < n ==> IssuedIds(next, n)[i] == next + i
    decreases n
  {
    if n > 0 {
      if n > 1 {
        IssuedIdsConsecutive(Increment(next), n - 1);
      } else {
        assert IssuedIds(Increment(next), 0) == [];
      }
    }
  }

  /** The id after the largest int is the smallest one: ids stop increasing at the wrap. */
  lemma IssuedIdsWrap()
    ensures IssuedIds(MAX_INT32, 2) == [MAX_INT32, MIN_INT32]
  {
  }
}
