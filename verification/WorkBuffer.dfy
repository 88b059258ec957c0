// The bounded buffer between the master thread and the workers: a ring of
// `capacity` places whose two counters only grow and are reduced modulo the
// capacity when they are used.
module WorkBuffer {

  datatype ClientInfo = ClientInfo(uuid: nat, ipAddr: string, fd: int, arrivalTime: string)

  const NO_CLIENT := ClientInfo(0, "", 0, "")

  /** Places of a ring that are less than a full turn apart are different places. */
  lemma RingPlacesDiffer(a: nat, b: nat, capacity: nat)
    requires capacity > 0 && a < b < a + capacity
    ensures a % capacity != b % capacity
  {
    var q, r, d := a / capacity, a % capacity, b - a;
    assert b == q * capacity + (r + d);
    if r + d < capacity {
      QuotientIs(b, capacity, q, r + d);
    } else {
      assert b == (q + 1) * capacity + (r + d - capacity);
      QuotientIs(b, capacity, q + 1, r + d - capacity);
    }
  }

  lemma QuotientIs(b: nat, capacity: nat, q: nat, r: nat)
    requires capacity > 0 && b == q * capacity + r && r < capacity
    ensures b % capacity == r
  {
    var e := b / capacity - q;
    assert r == e * capacity + b % capacity;
  }

  class SodaMachine {
    var buf: array<ClientInfo>
    const capacity: nat
    var front: nat
    var rear: nat
    // Semaphore values.
    var mutex: nat
    var slots: nat
    var items: nat

    ghost var queue: seq<ClientInfo>   // what is waiting, oldest first

    ghost predicate Valid()
      reads this, buf
    {
      && buf.Length == capacity
      && front <= rear && |queue| == rear - front <= capacity
      && mutex == 1 && slots == capacity - |queue| && items == |queue|
      && forall i {:trigger queue[i]} :: 0 <= i < |queue| ==> buf[(front + 1 + i) % capacity] == queue[i]
    }

    constructor (cap: nat)
      ensures Valid() && queue == [] && capacity == cap && fresh(buf)
    {
      capacity := cap;
      buf := new ClientInfo[cap](_ => NO_CLIENT);
      front, rear := 0, 0;
      mutex, slots, items := 1, cap, 0;
      queue := [];
    }

    /** `waits` says that P(slots) does not return: the buffer is full, and the call is still
        where it began. */
    method InsertFd(info: ClientInfo) returns (waits: bool)
      requires Valid()
      modifies this, buf
      ensures Valid() && buf == old(buf)
      ensures waits <==> |old(queue)| == capacity
      ensures queue == if waits then old(queue) else old(queue) + [info]
    {
      if slots == 0 {
        return true;
      }
      slots := slots - 1;
      mutex := mutex - 1;

      rear := rear + 1;
      buf[rear % capacity] := info;
      forall i {:trigger queue[i]} | 0 <= i < |queue|
        ensures buf[(front + 1 + i) % capacity] == queue[i]
      {
        RingPlacesDiffer(front + 1 + i, rear, capacity);
      }

      mutex := mutex + 1;
      items := items + 1;
      queue := queue + [info];
      return false;
    }

    /** `waits` says that P(items) does not return: the buffer is empty. */
    method RemoveFd() returns (waits: bool, info: ClientInfo)
      requires Valid()
      modifies this
      ensures Valid() && buf == old(buf)
      ensures waits <==> old(queue) == []
      ensures if waits then queue == old(queue) else info == old(queue)[0] && queue == old(queue)[1..]
    {
      if items == 0 {
        return true, NO_CLIENT;
      }
      items := items - 1;
      mutex := mutex - 1;

      front := front + 1;
      info := buf[front % capacity];
      assert info == queue[0];

      mutex := mutex + 1;
      slots := slots + 1;
      queue := queue[1..];
      return false, info;
    }
  }
}
