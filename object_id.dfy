/** The object ID counters of FObject.h and ObjectID.h. Each class has its
    own static `unsigned int` ID_ALLOCATOR; a construction pre-increments it
    (wrapping mod 2^32) and keeps the new value as its ID. The two statics
    live in one `IdCounters` object. */
module ObjectIds {
  const U32: nat := 0x1_0000_0000

  /** ++ID_ALLOCATOR on an unsigned int. */
  function NextId(counter: nat): (r: nat)
    requires counter < U32
    ensures r < U32
    ensures counter + 1 < U32 ==> r == counter + 1
    ensures counter + 1 == U32 ==> r == 0
  {
    (counter + 1) % U32
  }

  /** The counter after `k` constructions. */
  function CounterAfter(start: nat, k: nat): (r: nat)
    requires start < U32
    ensures r < U32
  {
    if k == 0 then start else NextId(CounterAfter(start, k - 1))
  }

  lemma {:induction false} CounterAfterIsSum(start: nat, k: nat)
    requires start < U32
    ensures CounterAfter(start, k) == (start + k) % U32
  {
    if k > 0 {
      CounterAfterIsSum(start, k - 1);
      IncrementMod(start + k - 1);
    }
  }

  /** Incrementing then reducing agrees with reducing the successor. */
  lemma IncrementMod(x: nat)
    ensures (x % U32 + 1) % U32 == (x + 1) % U32
  {
    var q, r := x / U32, x % U32;
    assert x == q * U32 + r;
    if r + 1 < U32 {
      assert x + 1 == q * U32 + (r + 1);
    } else {
      assert x + 1 == (q + 1) * U32;
    }
  }

  /** From a fresh counter the j-th construction (counting from 1) gets ID
      j, so IDs strictly increase and never repeat before 2^32 - 1
      constructions. */
  lemma IdsUniqueUntilWrap(i: nat, j: nat)
    requires 0 < i < j < U32
    ensures CounterAfter(0, i) == i && CounterAfter(0, j) == j
    ensures CounterAfter(0, i) < CounterAfter(0, j)
  {
    CounterAfterIsSum(0, i);
    CounterAfterIsSum(0, j);
  }

  /** The 2^32-th construction from a fresh counter wraps it back to 0, the
      value it started from. */
  lemma CounterWrapsToZero(k: nat)
    requires k == U32
    ensures CounterAfter(0, k) == 0
  {
    CounterAfterIsSum(0, k);
  }

  /** The two static allocators. */
  class IdCounters {
    /** FObject::ID_ALLOCATOR, shared by every FObject-derived type. */
    var fobjectAllocator: nat
    /** ObjectID::ID_ALLOCATOR. */
    var objectIdAllocator: nat

    ghost predicate Valid()
      reads this
    {
      fobjectAllocator < U32 && objectIdAllocator < U32
    }

    constructor ()
      ensures Valid() && fobjectAllocator == 0 && objectIdAllocator == 0
    {
      fobjectAllocator := 0;
      objectIdAllocator := 0;
    }
  }

  class FObject {
    const id: nat

    /** FObject(): pre-increment the shared counter and keep the result;
      ObjectID's counter is not touched. */
    constructor (counters: IdCounters)
      requires counters.Valid()
      modifies counters
      ensures counters.Valid()
      ensures id == NextId(old(counters.fobjectAllocator)) && counters.fobjectAllocator == id
      ensures counters.objectIdAllocator == old(counters.objectIdAllocator)
    {
      id := NextId(counters.fobjectAllocator);
      new;
      counters.fobjectAllocator := id;
    }

    function GetID(): nat {
      id
    }
  }

  class ObjectID {
    const id: nat

    /** ObjectID(): the same rule on its own counter; FObject's counter is
      not touched. */
    constructor (counters: IdCounters)
      requires counters.Valid()
      modifies counters
      ensures counters.Valid()
      ensures id == NextId(old(counters.objectIdAllocator)) && counters.objectIdAllocator == id
      ensures counters.fobjectAllocator == old(counters.fobjectAllocator)
    {
      id := NextId(counters.objectIdAllocator);
      new;
      counters.objectIdAllocator := id;
    }

    function GetID(): nat {
      id
    }
  }

  /** The first FObject and the first ObjectID both get ID 1, whichever is
      built first, and IDs of later objects of one kind keep counting up
      whatever is built of the other kind. */
  method FirstIds() returns (a: FObject, b: ObjectID, c: FObject)
    ensures a.GetID() == 1 && b.GetID() == 1 && c.GetID() == 2
  {
    var counters := new IdCounters();
    a := new FObject(counters);
    b := new ObjectID(counters);
    c := new FObject(counters);
  }
}
