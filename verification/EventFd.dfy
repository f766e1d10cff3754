/** The eventfd counter and its readiness (source/fakefd.c lines 344 to 366, 422
    to 441 and 606 to 612). */
module EventFd {

  const UINT64_MAX: nat := 0xFFFF_FFFF_FFFF_FFFF

  datatype Result = Waits | Again | Invalid | Done(value: nat)

  function WriteResult(counter: nat, value: nat, nonblock: bool): Result {
    if value == UINT64_MAX then Invalid
    else if value + counter > UINT64_MAX - 1 then (if nonblock then Again else Waits)
    else Done(value)
  }

  function ReadResult(counter: nat, semaphore: bool, nonblock: bool): Result {
    if counter == 0 then (if nonblock then Again else Waits) else Done(if semaphore then 1 else counter)
  }

  predicate PollIn(counter: nat) { counter > 0 }

  predicate PollOut(counter: nat) { counter < UINT64_MAX - 1 }

  /** Readiness is exact: a read does not wait exactly when poll says so, and
      poll reports room exactly when some write that adds would not wait. */
  lemma PollIsExact(counter: nat, semaphore: bool)
    ensures ReadResult(counter, semaphore, false) != Waits <==> PollIn(counter)
    ensures PollOut(counter) <==> exists value: nat :: value > 0 && WriteResult(counter, value, false).Done?
  {
    if PollOut(counter) {
      assert WriteResult(counter, 1, false).Done?;
    }
  }

  class EventCounter {
    var value: nat
    const semaphore: bool
    ghost var added: nat       // the sum of what writes put in
    ghost var taken: nat       // the sum of what reads got

    /** Nothing is lost: what went in came out or is still there. */
    ghost predicate Valid()
      reads this
    {
      value < UINT64_MAX && added == taken + value
    }

    constructor (initial: nat, semaphore: bool)
      requires initial < UINT64_MAX
      ensures Valid() && value == initial && added == initial && taken == 0 && this.semaphore == semaphore
    {
      value, added, taken, this.semaphore := initial, initial, 0, semaphore;
    }

    method WriteSection(add: nat, nonblock: bool) returns (result: Result)
      requires Valid() && add <= UINT64_MAX
      modifies this
      ensures Valid() && result == WriteResult(old(value), add, nonblock)
      ensures value == old(value) + (if result.Done? then add else 0) && taken == old(taken)
      ensures result.Done? <==> old(value) + add <= UINT64_MAX - 1
      ensures result == Invalid <==> add == UINT64_MAX
      ensures !result.Done? && result != Invalid ==> result == if nonblock then Again else Waits
    {
      if add == UINT64_MAX { return Invalid; }
      if add > UINT64_MAX - 1 - value { return if nonblock then Again else Waits; }
      value, added := value + add, added + add;
      result := Done(add);
    }

    /** All of the counter, or one when it is a semaphore. */
    method ReadSection(nonblock: bool) returns (result: Result)
      requires Valid()
      modifies this
      ensures Valid() && result == ReadResult(old(value), semaphore, nonblock)
      ensures result.Done? ==>
          result.value > 0 && value == old(value) - result.value && taken == old(taken) + result.value
      ensures !result.Done? ==> value == old(value) && taken == old(taken)
      ensures added == old(added)
      ensures result ==
                if old(value) == 0 then (if nonblock then Again else Waits)
                else Done(if semaphore then 1 else old(value))
    {
      if value == 0 { return if nonblock then Again else Waits; }
      var got := if semaphore then 1 else value;
      value, taken := value - got, taken + got;
      result := Done(got);
    }
  }
}
