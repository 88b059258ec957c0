// The cache as the object the program holds: a doubly linked list between two
// sentinels, mutated pointer by pointer. Each method is proved against CacheSpec.
module CacheList {
  import opened CacheSpec

  class Node {
    var host: string
    var uri: string
    var gr: GetResponse
    var next: Node?
    var prev: Node?

    constructor (host: string, uri: string, gr: GetResponse)
      ensures this.host == host && this.uri == uri && this.gr == gr && next == null && prev == null
    {
      this.host, this.uri, this.gr := host, uri, gr;
      next, prev := null, null;
    }
  }

  class Cache {
    const head: Node
    const tail: Node
    var numReader: int
    var totalSize: int
    // Semaphore values. A P on zero does not return, which the operations report.
    var mutex: nat
    var w: nat

    ghost var repr: set<Node>       // every node that ever belonged to the list
    ghost var freed: set<Node>      // those of them that were deleted
    ghost var nodes: seq<Node>      // from head to tail, both included
    ghost var entries: seq<Entry>   // what the nodes in between hold

    ghost predicate Linked()
      reads this`repr, this`nodes, this`entries, repr
    {
      && |nodes| == |entries| + 2
      && (forall i :: 0 <= i < |nodes| ==> nodes[i] in repr)
      && nodes[0] == head && nodes[|nodes| - 1] == tail
      && (forall i, j :: 0 <= i < j < |nodes| ==> nodes[i] != nodes[j])
      && (forall i {:trigger nodes[i].next} :: 0 <= i < |nodes| - 1 ==> nodes[i].next == nodes[i + 1])
      && (forall i {:trigger nodes[i].prev} :: 1 <= i < |nodes| ==> nodes[i].prev == nodes[i - 1])
    }

    ghost predicate Holds()
      reads this`repr, this`nodes, this`entries, repr
    {
      && |nodes| == |entries| + 2
      && (forall i :: 0 <= i < |nodes| ==> nodes[i] in repr)
      && forall i {:trigger entries[i]} :: 0 <= i < |entries| ==>
           entries[i] == Entry(Key(nodes[i + 1].host, nodes[i + 1].uri), nodes[i + 1].gr)
    }

    /** No freed node is on the list. */
    ghost predicate Live()
      reads this`repr, this`freed, this`nodes
    {
      freed <= repr && forall i :: 0 <= i < |nodes| ==> nodes[i] !in freed
    }

    ghost predicate List()
      reads this`repr, this`freed, this`nodes, this`entries, repr
    {
      Linked() && Holds() && Live()
    }

    /** Sentinel chain, contents, a zero total, and nobody inside. */
    ghost predicate Valid()
      reads this, repr
    {
      List() && totalSize == 0 && numReader == 0 && mutex == 1 && w == 1
    }

    constructor ()
      ensures Valid() && entries == [] && freed == {} && fresh(repr)
    {
      head := new Node("", "", NO_RESPONSE);
      tail := new Node("", "", NO_RESPONSE);
      numReader, totalSize, mutex, w := 0, 0, 1, 1;
      new;
      head.next := tail;
      tail.prev := head;
      nodes, entries, repr, freed := [head, tail], [], {head, tail}, {};
    }

    /** A read by one thread, whoever else is inside. `waits` says that the call does not return:
        it stands at P(mutex), with nothing done, or at P(W), as a first reader that has counted
        itself and keeps `mutex`, because a writer is inside. */
    method ReadFromCache(host: string, uri: string, now: int) returns (waits: bool, cs: CacheStatus, gr: GetResponse)
      requires numReader >= 0 && (numReader > 0 || w > 0 ==> List())
      modifies this`mutex, this`w, this`numReader
      ensures waits <==> old(mutex) == 0 || (old(numReader) == 0 && old(w) == 0)
      ensures waits && old(mutex) > 0 ==> mutex == old(mutex) - 1 && numReader == 1 && w == 0
      ensures !waits || old(mutex) == 0 ==> mutex == old(mutex) && numReader == old(numReader) && w == old(w)
      ensures !waits ==> List() && Answer(cs, gr) == Lookup(entries, Key(host, uri), now)
    {
      cs, gr := NotFound, NO_RESPONSE;
      if mutex == 0 {
        return true, cs, gr;
      }
      waits := Enter();
      if !waits {
        cs, gr := Traverse(host, uri, now);
        Leave();
      }
    }

    /** The first reader takes W, or waits for it and keeps `mutex`. */
    method Enter() returns (waits: bool)
      requires mutex > 0 && numReader >= 0
      modifies this`mutex, this`w, this`numReader
      ensures numReader == old(numReader) + 1
      ensures waits <==> old(numReader) == 0 && old(w) == 0
      ensures mutex == if waits then old(mutex) - 1 else old(mutex)
      ensures w == if !waits && old(numReader) == 0 then old(w) - 1 else old(w)
    {
      mutex := mutex - 1;
      numReader := numReader + 1;
      if numReader == 1 {
        if w == 0 {
          return true;
        }
        w := w - 1;
      }
      mutex := mutex + 1;
      return false;
    }

    /** The last reader gives W back. */
    method Leave()
      requires mutex > 0 && numReader > 0
      modifies this`mutex, this`w, this`numReader
      ensures mutex == old(mutex) && numReader == old(numReader) - 1
      ensures w == if numReader == 0 then old(w) + 1 else old(w)
    {
      mutex := mutex - 1;
      numReader := numReader - 1;
      if numReader == 0 {
        w := w + 1;
      }
      mutex := mutex + 1;
    }

    /** The critical section of a read: walk to the first match and judge it. */
    method Traverse(host: string, uri: string, now: int) returns (cs: CacheStatus, gr: GetResponse)
      requires List()
      ensures Answer(cs, gr) == Lookup(entries, Key(host, uri), now)
    {
      gr, cs := NO_RESPONSE, NotFound;
      var cur := head.next;
      ghost var i := 1;
      while cur != tail
        invariant 1 <= i < |nodes| && cur == nodes[i]
        invariant NoMatch(entries[..i - 1], Key(host, uri))
        decreases |nodes| - i
      {
        if cur.host == host && cur.uri == uri {
          FirstMatchAt(entries, Key(host, uri), i - 1);
          var before := cur.gr.writeTime;
          var timeDiff := TimeDifference(before, now);
          gr := cur.gr;
          if timeDiff < cur.gr.validTime {
            cs := CacheStatus.Valid;
            return;
          } else {
            cs := NeedRevalidate;
            return;
          }
        }
        PassMismatch(entries, Key(host, uri), i - 1);
        cur := cur.next;
        i := i + 1;
      }
      assert entries[..i - 1] == entries;
      FirstMatchNone(entries, Key(host, uri));
    }

    /** A write. `waits` says that it stands at P(W), with nothing done. */
    method WriteToCache(host: string, uri: string, gr: GetResponse) returns (waits: bool)
      requires totalSize == 0 && (w > 0 ==> List())
      modifies this`w, this`nodes, this`entries, this`repr, repr
      ensures waits <==> old(w) == 0
      ensures w == old(w) && (waits ==> unchanged(this) && unchanged(repr))
      ensures !waits ==>
                && List() && fresh(repr - old(repr))
                && entries == Written(old(entries), Key(host, uri), gr, 0)
    {
      if w == 0 {
        return true;
      }
      w := w - 1;
      var cacheSize := |gr.response|;
      if cacheSize > MAX_OBJECT_SIZE || cacheSize + totalSize > MAX_CACHE_SIZE {
      } else {
        var newNode := new Node(host, uri, gr);
        AddNode(newNode);
      }
      w := w + 1;
      return false;
    }

    /** `cons`: the four pointer assignments put the node right after the head. */
    method AddNode(nodeToAdd: Node?)
      requires List() && (nodeToAdd != null ==> nodeToAdd !in repr)
      modifies this`nodes, this`entries, this`repr, repr, nodeToAdd
      ensures List()
      ensures nodeToAdd == null ==> repr == old(repr) && nodes == old(nodes) && entries == old(entries)
      ensures nodeToAdd != null ==>
                && repr == old(repr) + {nodeToAdd}
                && nodes == [head, nodeToAdd] + old(nodes)[1..]
                && entries == [Entry(old(Key(nodeToAdd.host, nodeToAdd.uri)), old(nodeToAdd.gr))] + old(entries)
    {
      if nodeToAdd == null {
        return;
      }
      nodeToAdd.next := head.next;
      nodeToAdd.prev := head;

      head.next.prev := nodeToAdd;
      head.next := nodeToAdd;

      entries := [Entry(Key(nodeToAdd.host, nodeToAdd.uri), nodeToAdd.gr)] + entries;
      nodes, repr := [head, nodeToAdd] + nodes[1..], repr + {nodeToAdd};
    }

    /** Removal of one position: the neighbours are joined in both directions and the node is
        freed, which is no longer on the list. */
    method DeleteNode(node: Node?, ghost i: nat)
      requires List()
      requires node != null ==> 1 <= i < |nodes| - 1 && nodes[i] == node
      modifies this`nodes, this`entries, this`freed, repr
      ensures List()
      ensures node == null ==> freed == old(freed) && nodes == old(nodes) && entries == old(entries)
      ensures node != null ==>
                && freed == old(freed) + {node} && nodes == RemoveAt(old(nodes), i)
                && entries == RemoveAt(old(entries), i - 1)
    {
      if node == null {
        return;
      }
      node.next.prev := node.prev;
      node.prev.next := node.next;

      LinksJoined(nodes, i);
      nodes, freed := RemoveAt(nodes, i), freed + {node};
      entries := RemoveAt(entries, i - 1);
    }

    /** The cursor moves on, and the node behind it is deleted. */
    method AdvanceAndDelete(cur: Node, ghost i: nat) returns (next: Node)
      requires List() && 1 <= i < |nodes| - 1 && nodes[i] == cur
      modifies this`nodes, this`entries, this`freed, repr
      ensures List() && i < |nodes| == |old(nodes)| - 1 && nodes[i] == next
      ensures entries == RemoveAt(old(entries), i - 1)
    {
      next := cur.next;
      DeleteNode(next.prev, i);
    }

    /** A clear. `waits` says that it stands at P(W), with nothing done. */
    method ClearAllInvalidCache(hostName: string, uri: string) returns (waits: bool)
      requires w > 0 ==> List()
      modifies this`w, this`nodes, this`entries, this`freed, repr
      ensures waits <==> old(w) == 0
      ensures w == old(w) && (waits ==> unchanged(this) && unchanged(repr))
      ensures !waits ==> List() && entries == Without(old(entries), Key(hostName, uri))
    {
      if w == 0 {
        return true;
      }
      w := w - 1;
      Sweep(hostName, uri);
      w := w + 1;
      return false;
    }

    /** The critical section of a clear: walk the list and delete every match. */
    method Sweep(hostName: string, uri: string)
      requires List()
      modifies this`nodes, this`entries, this`freed, repr
      ensures List() && entries == Without(old(entries), Key(hostName, uri))
    {
      ghost var k := Key(hostName, uri);
      var cur := head.next;
      ghost var i := 1;
      while cur != tail
        invariant List()
        invariant 1 <= i < |nodes| && cur == nodes[i]
        invariant Swept(old(entries), entries, k, i - 1)
        decreases |nodes| - i
      {
        if hostName == cur.host && uri == cur.uri {
          SweptDrops(old(entries), entries, k, i - 1);
          cur := AdvanceAndDelete(cur, i);
        } else {
          SweptPasses(old(entries), entries, k, i - 1);
          cur := cur.next;
          i := i + 1;
        }
      }
      SweptEnds(old(entries), entries, k, i - 1);
    }
  }

  /** The state of a clear that started on `was`: the first `i` entries are dealt with. */
  predicate Swept(was: seq<Entry>, list: seq<Entry>, k: Key, i: nat) {
    i <= |list| && NoMatch(list[..i], k) && Without(list, k) == Without(was, k)
  }

  lemma SweptDrops(was: seq<Entry>, list: seq<Entry>, k: Key, i: nat)
    requires Swept(was, list, k, i) && i < |list| && list[i].key == k
    ensures Swept(was, RemoveAt(list, i), k, i)
  {
    DropMatch(list, k, i);
  }

  lemma SweptPasses(was: seq<Entry>, list: seq<Entry>, k: Key, i: nat)
    requires Swept(was, list, k, i) && i < |list| && list[i].key != k
    ensures Swept(was, list, k, i + 1)
  {
    PassMismatch(list, k, i);
  }

  lemma SweptEnds(was: seq<Entry>, list: seq<Entry>, k: Key, i: nat)
    requires Swept(was, list, k, i) && i == |list|
    ensures list == Without(was, k)
  {
    assert list[..i] == list;
    WithoutNoMatch(list, k);
  }

  /** Links that skip position `i` are the links of the list without it. */
  lemma LinksJoined(nodes: seq<Node>, i: nat)
    requires 1 <= i < |nodes| - 1
    requires nodes[i - 1].next == nodes[i + 1] && nodes[i + 1].prev == nodes[i - 1]
    requires forall j {:trigger nodes[j].next} :: 0 <= j < |nodes| - 1 && j != i - 1 ==> nodes[j].next == nodes[j + 1]
    requires forall j {:trigger nodes[j].prev} :: 1 <= j < |nodes| && j != i + 1 ==> nodes[j].prev == nodes[j - 1]
    ensures var r := RemoveAt(nodes, i);
            && (forall j {:trigger r[j].next} :: 0 <= j < |r| - 1 ==> r[j].next == r[j + 1])
            && (forall j {:trigger r[j].prev} :: 1 <= j < |r| ==> r[j].prev == r[j - 1])
  {
  }
}
