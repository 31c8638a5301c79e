/**
 Custody of pooled buffers. A goroutine that takes a buffer from the pool, or receives
 one over a channel, holds it until it puts it back or hands it on; `Put` demands that
 the buffer is held, so no buffer is returned twice or after it was handed on. Another
 goroutine may take a returned buffer at once, so `Put` forgets its contents: whatever
 is read from a buffer has to be read before.
 */
module Pool {
  import opened Bytes

  function Elements(bs: seq<array<Byte>>): (r: set<array<Byte>>) {
    set b | b in bs
  }

  ghost predicate Distinct(bs: seq<array<Byte>>) {
    forall i, j :: 0 <= i < j < |bs| ==> bs[i] != bs[j]
  }

  class Custody {
    ghost var held: set<array<Byte>>

    constructor ()
      ensures held == {}
    {
      held := {};
    }

    /** GetBuffer: a slice of exactly the requested length with arbitrary contents. */
    method Get(size: nat) returns (b: array<Byte>)
      modifies this
      ensures fresh(b) && b.Length == size
      ensures held == old(held) + {b}
    {
      b := new Byte[size];
      held := held + {b};
    }

    /** PutBuffer: the contents are anybody's from here on. */
    method Put(b: array<Byte>)
      requires b in held
      modifies this, b
      ensures held == old(held) - {b}
    {
      held := held - {b};
    }

    /** Ownership of a buffer leaves over a channel, contents and all. */
    method HandOn(b: array<Byte>)
      requires b in held
      modifies this
      ensures held == old(held) - {b}
    {
      held := held - {b};
    }

    method PutAll(bs: seq<array<Byte>>)
      requires Distinct(bs) && Elements(bs) <= held
      modifies this, bs
      ensures held == old(held) - Elements(bs)
    {
      for i := 0 to |bs|
        invariant held == old(held) - Elements(bs[..i])
      {
        assert bs[i] in Elements(bs) && bs[i] !in Elements(bs[..i]);
        Put(bs[i]);
        assert bs[..i + 1] == bs[..i] + [bs[i]];
      }
      assert bs[..|bs|] == bs;
    }
  }

  // ---- capacity classes (pkg/audio/pool.go) ----

  datatype Class = Class160 | Class320 | Class640 | Class960 | ClassDefault

  const THRESHOLD := 2000

  /** The pool a request is served from. */
  function GetClass(size: nat): (c: Class) {
    if size <= 160 then Class160
    else if size <= 320 then Class320
    else if size <= 640 then Class640
    else if size <= 960 then Class960
    else ClassDefault
  }

  /** The pool a buffer is returned to, by its capacity. */
  function PutClass(capacity: nat): (c: Class) {
    if capacity >= THRESHOLD then ClassDefault
    else if capacity >= 960 then Class960
    else if capacity >= 640 then Class640
    else if capacity >= 320 then Class320
    else Class160
  }

  function NewCapacity(c: Class): (n: nat) {
    match c
    case Class160 => 160
    case Class320 => 320
    case Class640 => 640
    case Class960 => 960
    case ClassDefault => 2048
  }

  ghost predicate KeepsClass(c: Class, capacities: multiset<nat>) {
    forall n: nat :: n in capacities ==> n > 0 && PutClass(n) == c
  }

  /** A buffer that would rest in the pool this request is served from is too short for it. */
  predicate TooShort(capacity: nat, size: nat) {
    capacity > 0 && PutClass(capacity) == GetClass(size) && capacity < size
  }

  /** A pool can hand out a buffer too short for a request only in the smallest and the default pool. */
  lemma ReplacedExactly(size: nat)
    ensures (exists capacity :: TooShort(capacity, size)) <==> 1 < size <= 160 || size > THRESHOLD
  {
    if 1 < size <= 160 {
      assert TooShort(1, size);
    } else if size > THRESHOLD {
      assert TooShort(THRESHOLD, size);
    }
  }

  lemma Shortage(capacity: nat, size: nat)
    requires TooShort(capacity, size)
    ensures 1 < size <= 160 || size > THRESHOLD
  {
    ReplacedExactly(size);
  }

  predicate Fits(size: nat, c: Class) {
    size <= NewCapacity(c)
  }

  /**
   A request is served from the tightest class whose new buffers hold it, the default one when
   none does; below the threshold a buffer is filed under the largest class it can serve.
   */
  lemma TightestClass(size: nat)
    ensures size <= 2048 ==> Fits(size, GetClass(size))
    ensures forall c: Class :: Fits(size, c) ==> NewCapacity(GetClass(size)) <= NewCapacity(c)
    ensures size > 960 ==> GetClass(size).ClassDefault?
    ensures 160 <= size < THRESHOLD ==> NewCapacity(PutClass(size)) <= size
    ensures size < THRESHOLD ==>
              forall c: Class :: c != ClassDefault && NewCapacity(c) <= size ==> NewCapacity(c) <= NewCapacity(PutClass(size))
    ensures size >= THRESHOLD ==> PutClass(size).ClassDefault?
  {
  }

  class BufferPools {
    /** The capacities of the buffers resting in each pool. */
    var resting: map<Class, multiset<nat>>

    ghost predicate Valid()
      reads this
    {
      forall c: Class :: c in resting && KeepsClass(c, resting[c])
    }

    constructor ()
      ensures Valid() && forall c: Class :: resting[c] == multiset{}
    {
      var none: multiset<nat> := multiset{};
      resting := map[Class160 := none, Class320 := none, Class640 := none, Class960 := none, ClassDefault := none];
      new;
      forall c: Class
        ensures c in resting && resting[c] == multiset{} && KeepsClass(c, resting[c])
      {
        match c case Class160 => case Class320 => case Class640 => case Class960 => case ClassDefault =>
      }
    }

    /**
     `reuse` is whether the pool has a buffer at hand; which one it hands out is not determined.
     `replaced` is whether what the pool had was too short, so that GetBuffer allocates another:
     as every pool keeps to its class, that happens only to very small and to large requests.
     */
    method GetBuffer(size: nat, reuse: bool) returns (length: nat, capacity: nat, replaced: bool)
      requires Valid()
      modifies this
      ensures Valid() && length == size <= capacity
      ensures forall c: Class :: resting[c] <= old(resting)[c]
      ensures forall c: Class :: c != GetClass(size) ==> resting[c] == old(resting)[c]
      ensures replaced ==> 1 < size <= 160 || size > THRESHOLD
      ensures replaced ==> capacity == size
      ensures if reuse && |old(resting)[GetClass(size)]| > 0 then |resting[GetClass(size)]| == |old(resting)[GetClass(size)]| - 1
              else resting == old(resting) && capacity == Max(NewCapacity(GetClass(size)), size)
      ensures !replaced && resting != old(resting) ==> capacity in old(resting)[GetClass(size)]
    {
      capacity := FromPool(GetClass(size), reuse);
      replaced := capacity < size;
      if replaced {
        Shortage(capacity, size);
        capacity := size;
      }
      length := size;
    }

    /** A buffer of the pool's class: one that rested there, or a new one. */
    method FromPool(c: Class, reuse: bool) returns (capacity: nat)
      requires Valid()
      modifies this
      ensures Valid() && capacity > 0 && PutClass(capacity) == c
      ensures forall d: Class :: d != c ==> resting[d] == old(resting)[d]
      ensures resting[c] <= old(resting)[c]
      ensures if reuse && |old(resting)[c]| > 0 then |resting[c]| == |old(resting)[c]| - 1 && capacity in old(resting)[c]
              else resting == old(resting) && capacity == NewCapacity(c)
    {
      capacity := NewCapacity(c);
      if reuse && |resting[c]| > 0 {
        var n: nat :| n in resting[c];
        assert KeepsClass(c, resting[c]);
        Take(c, n);
        capacity := n;
      }
    }

    method Take(c: Class, n: nat)
      requires Valid() && n in resting[c]
      modifies this
      ensures Valid() && resting == old(resting)[c := old(resting)[c] - multiset{n}]
    {
      assert KeepsClass(c, resting[c] - multiset{n});
      resting := resting[c := resting[c] - multiset{n}];
    }

    method PutBuffer(capacity: nat)
      requires Valid()
      modifies this
      ensures Valid()
      ensures resting == if capacity == 0 then old(resting)
                         else old(resting)[PutClass(capacity) := old(resting)[PutClass(capacity)] + multiset{capacity}]
    {
      if capacity == 0 {
        return;
      }
      var c := PutClass(capacity);
      assert KeepsClass(c, resting[c] + multiset{capacity});
      resting := resting[c := resting[c] + multiset{capacity}];
    }
  }

}
