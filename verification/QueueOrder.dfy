/** The durable queue: its order is strict and total, and sorting the live records and slicing off the free
    slots decides exactly whether fewer live records are ahead than there are slots. */
module QueueOrder {
  import opened Journal
  import opened RuntimeSections

  /** The comparator alone ties two different records exactly when both carry the same ticket, and it is
      antisymmetric. */
  lemma {:induction false} ComparesEqualExactly(records: Records, left: Key, right: Key)
    requires left in records && right in records && left != right
    ensures CompareQueue(records, left, right) == 0 <==>
              records[left].queue.ticket.Some? && records[left].queue.ticket == records[right].queue.ticket
    ensures CompareQueue(records, left, right) < 0 <==> CompareQueue(records, right, left) > 0
  {
  }

  /** With ties broken by position, as a stable sort of records in key order does, the order is strict and total. */
  lemma {:induction false} BeforeIsStrictTotal(records: Records, a: Key, b: Key, c: Key)
    requires a in records && b in records && c in records
    ensures !Before(records, a, a)
    ensures a != b ==> Before(records, a, b) != Before(records, b, a)
    ensures Before(records, a, b) && Before(records, b, c) ==> Before(records, a, c)
  {
  }

  /** Who comes first: a record without a ticket before one with a ticket, and of two without the older; a smaller
      ticket before a greater one; and by key where nothing else tells. */
  predicate ComesFirst(records: Records, a: Key, b: Key)
    requires a in records && b in records
  {
    match (records[a].queue.ticket, records[b].queue.ticket)
    case (Some(first), Some(second)) => first < second || (first == second && a < b)
    case (None, Some(_)) => true
    case (Some(_), None) => false
    case (None, None) => Since(records[a]) < Since(records[b]) || (Since(records[a]) == Since(records[b]) && a < b)
  }

  /** When the record was created, or last written if that is not known. */
  function Since(record: RuntimeRecord): Time {
    match record.identity.createdAt
    case Some(created) => created
    case None => record.updatedAt
  }

  /** The queue is served first come, first served. */
  lemma {:induction false} BeforeExactly(records: Records, a: Key, b: Key)
    requires a in records && b in records
    ensures Before(records, a, b) <==> ComesFirst(records, a, b)
  {
  }

  /** A new request comes after every record that waits, as long as no ticket is above the counter. */
  lemma {:induction false} EnqueuedIsLast(records: Records, ticket: int, key: Key, identity: Identity, owner: Uuid,
      now: Time, leaseMs: nat, other: Key)
    requires forall k :: k in records && records[k].queue.ticket.Some? ==> records[k].queue.ticket.value < ticket
    requires Enqueue(records, ticket, key, identity, owner, now, leaseMs).Write?
    requires other in LiveQueue(records, now)
    ensures
      var after := Enqueue(records, ticket, key, identity, owner, now, leaseMs).records;
      && key in after && other in LiveQueue(after, now)
      && Before(after, other, key) && other in Ahead(after, key, now)
  {
  }

  /** Listed in queue order, without repetition. */
  ghost predicate Ordered(records: Records, order: seq<Key>) {
    && (forall i :: 0 <= i < |order| ==> order[i] in records)
    && (forall i, j :: 0 <= i < j < |order| ==> Before(records, order[i], order[j]))
  }

  ghost function Elements(order: seq<Key>): set<Key> {
    set k | k in order
  }

  function Inserted(order: seq<Key>, key: Key, at: nat): seq<Key>
    requires at <= |order|
  {
    order[..at] + [key] + order[at..]
  }

  lemma {:induction false} InsertedElements(order: seq<Key>, key: Key, at: nat)
    requires at <= |order|
    ensures Elements(Inserted(order, key, at)) == Elements(order) + {key}
  {
    var longer := Inserted(order, key, at);
    assert order == order[..at] + order[at..];
    assert forall k :: k in longer <==> k in order[..at] || k == key || k in order[at..];
  }

  lemma {:induction false} InsertedInOrder(records: Records, order: seq<Key>, key: Key, at: nat)
    requires Ordered(records, order) && key in records && at <= |order|
    requires forall i :: 0 <= i < at ==> Before(records, order[i], key)
    requires forall i :: at <= i < |order| ==> Before(records, key, order[i])
    ensures Ordered(records, Inserted(order, key, at))
  {
    hide Before;
    var longer := Inserted(order, key, at);
    forall i | 0 <= i < |longer|
      ensures longer[i] == if i < at then order[i] else if i == at then key else order[i - 1]
    {
    }
    forall i, j | 0 <= i < j < |longer| ensures longer[i] in records && Before(records, longer[i], longer[j]) {
      var left := if i < at then i else i - 1;
      var right := if j < at then j else j - 1;
      assert i != at && j != at ==> Before(records, order[left], order[right]);
    }
  }

  method InsertInOrder(records: Records, order: seq<Key>, key: Key) returns (longer: seq<Key>)
    requires Ordered(records, order) && key in records && key !in order
    ensures Ordered(records, longer) && Elements(longer) == Elements(order) + {key}
  {
    hide CompareQueue;
    var at := 0;
    while at < |order| && Before(records, order[at], key)
      invariant 0 <= at <= |order|
      invariant forall i :: 0 <= i < at ==> Before(records, order[i], key)
    {
      at := at + 1;
    }
    longer := Inserted(order, key, at);
    forall i | at <= i < |order| ensures Before(records, key, order[i]) {
      BeforeIsStrictTotal(records, key, order[at], order[i]);
    }
    InsertedInOrder(records, order, key, at);
    InsertedElements(order, key, at);
  }

  method SortLive(records: Records, live: set<Key>) returns (order: seq<Key>)
    requires live <= records.Keys
    ensures Ordered(records, order) && Elements(order) == live
  {
    order := [];
    var rest := live;
    while rest != {}
      invariant rest <= live && Ordered(records, order) && Elements(order) == live - rest
      decreases rest
    {
      var key :| key in rest;
      assert key !in Elements(order);
      order := InsertInOrder(records, order, key);
      rest := rest - {key};
    }
  }

  /** The record at index `p` has exactly `p` live records ahead. */
  lemma {:induction false} PositionCounts(records: Records, order: seq<Key>, p: nat, now: Time)
    requires Ordered(records, order) && Elements(order) == LiveQueue(records, now) && p < |order|
    ensures |Ahead(records, order[p], now)| == p
  {
    var key := order[p];
    forall i | 0 <= i < |order| ensures Before(records, order[i], key) <==> i < p {
      BeforeIsStrictTotal(records, order[i], key, key);
    }
    forall k ensures k in Ahead(records, key, now) <==> k in Elements(order[..p]) {
      if k in Ahead(records, key, now) {
        assert k in Elements(order);
        var i :| 0 <= i < |order| && order[i] == k;
        assert order[..p][i] == k;
      }
    }
    assert Ahead(records, key, now) == Elements(order[..p]);
    DistinctSize(records, order[..p]);
  }

  lemma {:induction false} DistinctSize(records: Records, order: seq<Key>)
    requires Ordered(records, order)
    ensures |Elements(order)| == |order|
    decreases |order|
  {
    if order != [] {
      var last := |order| - 1;
      DistinctSize(records, order[..last]);
      forall i | 0 <= i < last ensures order[i] != order[last] {
        BeforeIsStrictTotal(records, order[i], order[last], order[last]);
      }
      assert Elements(order) == Elements(order[..last]) + {order[last]};
    }
  }

  /** hasQueuedGenerationPriority as the source computes it: filter, sort, slice, search. */
  method HasQueuedGenerationPriority(records: Records, key: Key, now: Time, maxActive: nat) returns (granted: bool)
    requires key in records
    ensures granted == HasPriority(records, key, now, maxActive)
  {
    var available := maxActive - |Reserving(records)|;
    if available <= 0 {
      return false;
    }
    var order := SortLive(records, LiveQueue(records, now));
    granted := false;
    var i := 0;
    while i < |order| && i < available
      invariant 0 <= i <= |order|
      invariant !granted && forall j :: 0 <= j < i ==> order[j] != key
    {
      if order[i] == key {
        PositionCounts(records, order, i, now);
        assert key in Elements(order);
        return true;
      }
      i := i + 1;
    }
    if key in LiveQueue(records, now) {
      assert key in Elements(order);
      var p :| 0 <= p < |order| && order[p] == key;
      PositionCounts(records, order, p, now);
    }
  }

  /** The reservation decision: granted to a live record with fewer live records ahead than free slots, all
      of them before it in ticket order when tickets are distinct. */
  lemma {:induction false} ReservationRespectsQueue(records: Records, ticket: int, key: Key, requestHash: string,
      id: Uuid, owner: Uuid,
                                 now: Time, leaseMs: nat, maxActive: nat)
    requires Reserve(records, ticket, key, requestHash, id, owner, now, leaseMs, maxActive).Write?
    ensures key in LiveQueue(records, now)
    ensures |Ahead(records, key, now)| + |Reserving(records)| < maxActive
    ensures forall k :: k in LiveQueue(records, now) && k !in Ahead(records, key, now) && k != key ==>
        Before(records, key, k)
  {
    forall k | k in LiveQueue(records, now) && k !in Ahead(records, key, now) && k != key
      ensures Before(records, key, k)
    {
      BeforeIsStrictTotal(records, key, k, key);
    }
  }
}
