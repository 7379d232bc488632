/** list.h: the intrusive circular lists, and the queue of bit copies that binarybuffer.c keeps in one. */
module List {
  import opened Bits
  import opened BitCopy
  import opened MpsseDevice
  import opened ReadBack
  import Mpsse

  /** `struct list_head`. `entry` is the structure it is embedded in, for the nodes of a bit copy queue. */
  class Node {
    var next: Node?
    var prev: Node?
    const entry: Option<Entry>

    constructor (entry: Option<Entry>)
      ensures this.entry == entry
    {
      this.entry := entry;
      next, prev := null, null;
    }
  }

  function After(ring: seq<Node>, i: nat): Node
    requires i < |ring|
  {
    if i + 1 < |ring| then ring[i + 1] else ring[0]
  }

  function Before(ring: seq<Node>, i: nat): Node
    requires i < |ring|
  {
    if i > 0 then ring[i - 1] else ring[|ring| - 1]
  }

  ghost predicate Distinct(ring: seq<Node>) {
    |ring| >= 1 && forall i, j :: 0 <= i < j < |ring| ==> ring[i] != ring[j]
  }

  /** A list with head `ring[0]` and the elements `ring[1..]`: the nodes are different and linked in this
      order, both ways round. */
  ghost predicate Ring(ring: seq<Node>)
    reads ring
  {
    && Distinct(ring)
    && (forall i :: 0 <= i < |ring| ==> ring[i].next == After(ring, i) && ring[i].prev == Before(ring, i))
  }

  /** Following `next` and then `prev`, or the other way round, leads back. */
  lemma LinksAreInverse(ring: seq<Node>, n: Node)
    requires Ring(ring) && n in ring
    ensures n.next in ring && n.next.prev == n && n.prev in ring && n.prev.next == n
  {
    var i :| 0 <= i < |ring| && ring[i] == n;
    var j := if i + 1 < |ring| then i + 1 else 0;
    var k := if i > 0 then i - 1 else |ring| - 1;
    assert ring[j].prev == n && ring[k].next == n;
  }

  /** `INIT_LIST_HEAD` */
  method InitListHead(list: Node)
    modifies list
    ensures Ring([list])
  {
    list.next := list;
    list.prev := list;
  }

  /** `__list_add` */
  method ListInsert(newl: Node, prev: Node, next: Node)
    modifies newl, prev, next
    ensures forall n :: n in {newl, prev, next} ==>
      && n.next == (if n == prev then newl else if n == newl then next else old(n.next))
      && n.prev == (if n == newl then prev else if n == next then newl else old(n.prev))
  {
    next.prev := newl;
    newl.next := next;
    newl.prev := prev;
    prev.next := newl;
  }

  /** `list_add_tail` */
  method ListAddTail(newl: Node, head: Node, ghost ring: seq<Node>)
    requires Ring(ring) && head == ring[0] && newl !in ring
    modifies newl, head, ring[|ring| - 1]
    ensures Ring(ring + [newl])
  {
    assert head.prev == ring[|ring| - 1];
    ListInsert(newl, head.prev, head);
  }

  /** The neighbours after a removal. */
  lemma Removed(ring: seq<Node>, k: nat)
    requires Distinct(ring) && 1 <= k < |ring|
    ensures var r := ring[..k] + ring[k + 1..];
      && Distinct(r)
      && forall i :: 0 <= i < |r| ==>
           var j := if i < k then i else i + 1;
           && r[i] == ring[j]
           && After(r, i) == (if i == k - 1 then After(ring, k) else After(ring, j))
           && Before(r, i) == (if r[i] == After(ring, k) then Before(ring, k) else Before(ring, j))
  {
  }

  /** `list_del`; the poison values are null here. */
  method ListDel(entry: Node, ghost ring: seq<Node>, ghost k: nat)
    requires Ring(ring) && 1 <= k < |ring| && ring[k] == entry
    modifies entry, Before(ring, k), After(ring, k)
    ensures Ring(ring[..k] + ring[k + 1..]) && entry.next == null && entry.prev == null
  {
    var prev, next := entry.prev, entry.next;
    next.prev := prev;
    prev.next := next;
    entry.next := null;
    entry.prev := null;
    ghost var r := ring[..k] + ring[k + 1..];
    Removed(ring, k);
    forall i | 0 <= i < |r| ensures r[i].next == After(r, i) && r[i].prev == Before(r, i) {
      ghost var j := if i < k then i else i + 1;
      assert r[i] == ring[j] && ring[j] != entry;
    }
  }

  /** `list_empty` */
  method ListEmpty(head: Node, ghost ring: seq<Node>) returns (empty: bool)
    requires Ring(ring) && head == ring[0]
    ensures empty <==> ring == [head]
  {
    empty := head.next == head;
    assert |ring| > 1 ==> ring[0].next == ring[1];
  }

  /** The neighbours in a joined list. */
  lemma Joined(to: seq<Node>, from: seq<Node>)
    requires Distinct(to) && Distinct(from) && |from| > 1 && forall n :: n in from ==> n !in to
    ensures var r, m := to + from[1..], |to|;
      && Distinct(r)
      && (forall i :: 0 <= i < m ==>
           && r[i] == to[i]
           && After(r, i) == (if i == m - 1 then from[1] else After(to, i))
           && Before(r, i) == (if i == 0 then from[|from| - 1] else Before(to, i)))
      && (forall i :: m <= i < |r| ==>
           var j := i - m + 1;
           && r[i] == from[j]
           && After(r, i) == (if i == |r| - 1 then to[0] else After(from, j))
           && Before(r, i) == (if i == m then to[m - 1] else Before(from, j)))
  {
    var r, m := to + from[1..], |to|;
    forall i, j | 0 <= i < j < |r| ensures r[i] != r[j] {
      if i < m <= j {
        assert r[j] == from[j - m + 1] && from[j - m + 1] in from;
      }
    }
  }

  /** `list_splice_tail_init`: the elements of `list` go behind those of `head`. */
  method ListSpliceTailInit(list: Node, head: Node, ghost from: seq<Node>, ghost to: seq<Node>)
    requires Ring(from) && list == from[0] && Ring(to) && head == to[0]
    requires forall n :: n in from ==> n !in to
    modifies from, to
    ensures Ring(to + from[1..]) && Ring([list])
  {
    hide After, Before;
    NeighboursOfHead(from);
    NeighboursOfHead(to);
    var empty := ListEmpty(list, from);
    if !empty {
      var first, last := list.next, list.prev;
      var prev, next := head.prev, head;
      first.prev := prev;
      prev.next := first;
      last.next := next;
      next.prev := last;
      InitListHead(list);
      Joined(to, from);
      ghost var r, m := to + from[1..], |to|;
      forall i | 0 <= i < |r| ensures r[i].next == After(r, i) && r[i].prev == Before(r, i) {
        if i < m {
          assert r[i] == to[i] && to[i] !in from && prev == to[m - 1] && next == to[0];
        } else {
          ghost var j := i - m + 1;
          assert r[i] == from[j] && from[j] !in to && from[j] != list && first == from[1] && last == from[|from| - 1];
        }
      }
    } else {
      assert to + from[1..] == to;
    }
  }

  lemma NeighboursOfHead(ring: seq<Node>)
    requires Ring(ring)
    ensures After(ring, 0) == ring[0].next && Before(ring, 0) == ring[0].prev == ring[|ring| - 1]
    ensures |ring| > 1 ==> ring[0].next == ring[1]
  {
  }

  /** The neighbours on both sides of a cut. */
  lemma CutFront(ring: seq<Node>, k: nat, list: Node)
    requires Distinct(ring) && 1 <= k < |ring| && list !in ring
    ensures var r := [list] + ring[1..k + 1];
      && Distinct(r) && r[0] == list && After(r, 0) == ring[1] && Before(r, 0) == ring[k]
      && forall i :: 1 <= i < |r| ==>
           && r[i] == ring[i]
           && After(r, i) == (if i == k then list else After(ring, i))
           && Before(r, i) == (if i == 1 then list else Before(ring, i))
  {
    var r := [list] + ring[1..k + 1];
    forall i, j | 0 <= i < j < |r| ensures r[i] != r[j] {
      assert r[j] == ring[j] && ring[j] in ring;
    }
  }

  lemma CutBack(ring: seq<Node>, k: nat)
    requires Distinct(ring) && 1 <= k < |ring|
    ensures var r := [ring[0]] + ring[k + 1..];
      && Distinct(r)
      && After(r, 0) == After(ring, k)
      && Before(r, 0) == (if k == |ring| - 1 then ring[0] else Before(ring, 0))
      && forall i :: 1 <= i < |r| ==>
           && r[i] == ring[i + k]
           && After(r, i) == After(ring, i + k)
           && Before(r, i) == (if i == 1 then ring[0] else Before(ring, i + k))
  {
  }

  /** `__list_cut_position` */
  method ListCut(list: Node, head: Node, entry: Node, ghost ring: seq<Node>, ghost k: nat)
    requires Ring(ring) && head == ring[0] && list !in ring && 1 <= k < |ring| && ring[k] == entry
    modifies list, ring
    ensures Ring([list] + ring[1..k + 1]) && Ring([head] + ring[k + 1..])
  {
    hide After, Before;
    NeighboursOfHead(ring);
    CutFront(ring, k, list);
    CutBack(ring, k);
    NextAt(ring, k);
    var newFirst := entry.next;
    list.next := head.next;
    list.next.prev := list;
    list.prev := entry;
    entry.next := list;
    head.next := newFirst;
    newFirst.prev := head;
    ghost var front, back := [list] + ring[1..k + 1], [head] + ring[k + 1..];
    forall i | 0 <= i < |front| ensures front[i].next == After(front, i) && front[i].prev == Before(front, i) {
      assert i > 0 ==> front[i] == ring[i] && ring[i] in ring;
    }
    forall i | 0 <= i < |back| ensures back[i].next == After(back, i) && back[i].prev == Before(back, i) {
      assert i > 0 ==> back[i] == ring[i + k] && ring[i + k] in ring;
    }
  }

  lemma NextAt(ring: seq<Node>, k: nat)
    requires Ring(ring) && k < |ring|
    ensures ring[k].next == After(ring, k) == if k + 1 < |ring| then ring[k + 1] else ring[0]
    ensures ring[k].next in ring
  {
  }

  /** `list_cut_position`: the elements up to and including `entry` go to `list`. With no elements there
      at all, or an entry that is not the one element, nothing happens, not even to `list`. */
  method ListCutPosition(list: Node, head: Node, entry: Node, ghost ring: seq<Node>, ghost k: nat)
    requires Ring(ring) && head == ring[0] && list !in ring
    requires (k < |ring| && ring[k] == entry) || (|ring| <= 2 && entry !in ring)
    modifies list, ring
    ensures |ring| == 1 || entry !in ring ==>
      Ring(ring) && list.next == old(list.next) && list.prev == old(list.prev)
    ensures |ring| > 1 && entry in ring ==> Ring([list] + ring[1..k + 1]) && Ring([head] + ring[k + 1..])
  {
    NeighboursOfHead(ring);
    var empty := ListEmpty(head, ring);
    if empty {
      return;
    }
    // list_is_singular
    if head.next == head.prev && head.next != entry && head != entry {
      return;
    }
    if entry == head {
      InitListHead(list);
      assert [list] + ring[1..1] == [list] && [head] + ring[1..] == ring;
    } else {
      ListCut(list, head, entry, ring, k);
    }
  }

  /** The queued copies of a ring, oldest first. */
  function EntriesOf(ring: seq<Node>): (r: seq<Entry>)
    requires forall i :: 1 <= i < |ring| ==> ring[i].entry.Some?
    ensures |r| == if ring == [] then 0 else |ring| - 1
  {
    if ring == [] then [] else seq(|ring| - 1, i requires 0 <= i < |ring| - 1 => ring[i + 1].entry.value)
  }

  /** `struct bit_copy_queue` */
  class BitCopyQueue {
    const head: Node
    ghost var ring: seq<Node>

    ghost predicate Valid()
      reads this, ring
    {
      Ring(ring) && ring[0] == head && forall i :: 1 <= i < |ring| ==> ring[i].entry.Some?
    }

    ghost function Entries(): seq<Entry>
      requires Valid()
      reads this, ring
    {
      EntriesOf(ring)
    }

    /** `bit_copy_queue_init` */
    constructor ()
      ensures Valid() && fresh(ring) && Entries() == []
    {
      head := new Node(None);
      ring := [];
      new;
      InitListHead(head);
      ring := [head];
    }

    /** `bit_copy_queued` */
    method Queued(entry: Entry)
      requires Valid()
      modifies this, ring
      ensures Valid() && Entries() == old(Entries()) + [entry]
      ensures |ring| == |old(ring)| + 1 && fresh(ring[|old(ring)|]) && ring[..|old(ring)|] == old(ring)
    {
      hide EntriesOf, Ring;
      FirstOf(ring);
      var qe := new Node(Some(entry));
      ListAddTail(qe, head, ring);
      EntriesMore(ring, qe);
      ring := ring + [qe];
    }

    /** `list_for_each_entry_safe`: the next element is fetched before the current one is unlinked. What
        is left is the rest of the ring. */
    method Unlink(qe: Node)
      requires Valid() && |ring| > 1 && ring[1] == qe
      modifies this, ring
      ensures Valid() && ring == old([head] + ring[2..]) && Entries() == old(Entries()[1..])
      ensures qe.next == null && qe.prev == null
    {
      hide Ring, EntriesOf;
      FirstOf(ring);
      ListDel(qe, ring, 1);
      assert ring[..1] + ring[2..] == [head] + ring[2..];
      EntriesRest(ring);
      ring := [head] + ring[2..];
    }

    /** One `bit_copy` of the queue. */
    method Copy(e: Entry, buf: array<byte>, ghost mem: map<array<byte>, seq<byte>>, ghost all: seq<Entry>, ghost i: nat)
      requires Valid() && buf !in mem && InRange(all, buf.Length) && i < |all| && e == all[i]
      requires InRange(all[..i], buf.Length)
      requires forall e :: e in all ==> e.dst in mem && e.dstOffset + e.bitCount <= 8 * e.dst.Length
      requires Holds(mem, QueueWrites(all[..i], buf[..]))
      modifies mem.Keys
      ensures Valid() && forall n :: n in ring ==> n.next == old(n.next)
      ensures InRange(all[..i + 1], buf.Length) && Holds(mem, QueueWrites(all[..i + 1], buf[..]))
    {
      hide Stored, QueueWrites, EntryWrites, Ring;
      ghost var from := buf[..];
      assert e in all;
      BufSetBuf(buf, 8 * e.src + e.srcOffset, e.dst, e.dstOffset, e.bitCount);
      QueueWritesFront(all, from, i);
      forall a | a in mem
        ensures a[..] == Stored(a, mem[a], QueueWrites(all[..i + 1], from))
      {
        OneCopyMore(all, from, i, a, mem[a], old(a[..]), a[..]);
      }
    }

    /** `list_del` in the middle of an execution. */
    method UnlinkCopied(qe: Node, ghost mem: map<array<byte>, seq<byte>>, ghost ws: seq<Write>)
      requires Valid() && |ring| > 1 && ring[1] == qe && Holds(mem, ws)
      modifies this, ring
      ensures Valid() && ring == old([head] + ring[2..]) && Entries() == old(Entries()[1..])
      ensures Holds(mem, ws)
    {
      hide Ring, EntriesOf, Stored;
      Unlink(qe);
    }

    /** The body of the loop of `bit_copy_execute`, up to the step to the next element. */
    method Turn(qe: Node, buf: array<byte>, ghost mem: map<array<byte>, seq<byte>>, ghost all: seq<Entry>, ghost i: nat)
      requires Valid() && |ring| > 1 && ring[1] == qe
      requires buf !in mem && InRange(all, buf.Length) && i < |all| && Entries() == all[i..]
      requires InRange(all[..i], buf.Length)
      requires forall e :: e in all ==> e.dst in mem && e.dstOffset + e.bitCount <= 8 * e.dst.Length
      requires Holds(mem, QueueWrites(all[..i], buf[..]))
      modifies this, ring, mem.Keys
      ensures Valid() && ring == old([head] + ring[2..]) && Entries() == all[i + 1..]
      ensures InRange(all[..i + 1], buf.Length) && Holds(mem, QueueWrites(all[..i + 1], buf[..]))
      ensures buf[..] == old(buf[..])
    {
      hide Stored, QueueWrites, EntryWrites, Ring, Holds, EntriesOf;
      FirstEntry(ring);
      Copy(qe.entry.value, buf, mem, all, i);
      ghost var ws := QueueWrites(all[..i + 1], buf[..]);
      UnlinkCopied(qe, mem, ws);
      assert all[i..][1..] == all[i + 1..];
    }

    /** `bit_copy_execute`: every queued copy is made once, in the order they were queued, and the queue
        ends up empty. */
    method Execute(buf: array<byte>, ghost memory: set<array<byte>>)
      requires Valid() && buf !in memory && InRange(Entries(), buf.Length)
      requires forall e :: e in Entries() ==> e.dst in memory && e.dstOffset + e.bitCount <= 8 * e.dst.Length
      modifies this, ring, memory
      ensures Valid() && Entries() == [] && ring == [head]
      ensures forall a :: a in memory ==> a[..] == Stored(a, old(a[..]), QueueWrites(old(Entries()), buf[..]))
    {
      hide Stored, QueueWrites, EntryWrites, Ring, Holds, EntriesOf;
      ghost var all, mem, from, nodes := Entries(), map a | a in memory :: a[..], buf[..], ring;
      ghost var i := 0;
      QueueWritesFront(all, from, 0);
      FirstOf(ring);
      NothingCopied(mem, QueueWrites(all[..0], from));
      var qe := head.next;
      var tmp := qe.next;
      while qe != head
        invariant Valid() && i + |ring| == |nodes| && Rest(ring, nodes)
        invariant qe == (if |ring| > 1 then ring[1] else head) && tmp == qe.next && (|ring| > 1 ==> ring[1] != head)
        invariant i <= |all| && Entries() == all[i..] && buf[..] == from
        invariant InRange(all[..i], |from|) && Holds(mem, QueueWrites(all[..i], from))
        decreases |ring|
      {
        SecondOf(ring);
        RestRest(ring, nodes);
        Turn(qe, buf, mem, all, i);
        qe := tmp;
        FirstOf(ring);
        tmp := tmp.next;
        i := i + 1;
      }
      NoEntries(ring);
      assert all[..i] == all;
      AllCopied(mem, QueueWrites(all, from));
    }

    /** `bit_copy_discard`: the same without the copying. */
    method Discard()
      requires Valid()
      modifies this, ring
      ensures Valid() && Entries() == [] && ring == [head]
    {
      hide Ring, EntriesOf;
      ghost var nodes := ring;
      FirstOf(ring);
      var qe := head.next;
      var tmp := qe.next;
      while qe != head
        invariant Valid() && Rest(ring, nodes)
        invariant qe == (if |ring| > 1 then ring[1] else head) && tmp == qe.next && (|ring| > 1 ==> ring[1] != head)
        decreases |ring|
      {
        SecondOf(ring);
        RestRest(ring, nodes);
        Unlink(qe);
        qe := tmp;
        FirstOf(ring);
        tmp := tmp.next;
      }
      NoEntries(ring);
    }
  }

  /** A ring with the given copies queued. */
  method OnRing(entries: seq<Entry>) returns (queue: BitCopyQueue)
    ensures fresh(queue) && fresh(queue.ring) && queue.Valid() && queue.Entries() == entries
  {
    hide Ring, EntriesOf;
    queue := new BitCopyQueue();
    for i := 0 to |entries|
      invariant queue.Valid() && queue.Entries() == entries[..i]
      invariant fresh(queue) && fresh(queue.ring)
    {
      queue.Queued(entries[i]);
      assert entries[..i + 1] == entries[..i] + [entries[i]];
    }
    assert entries[..|entries|] == entries;
  }

  /** The MPSSE context keeps its read queue as a sequence. Kept in a ring it is run with the same contract as
      `Mpsse.Context.BitCopyExecute`, which fixes what becomes of every destination: so the two are
      interchangeable. */
  method ExecuteOnRing(ctx: Mpsse.Context)
    requires ctx.writeBuffer !in ctx.trace.memory && ctx.readBuffer !in ctx.trace.memory
    requires ctx.readChunk !in ctx.trace.memory
    requires forall e :: e in ctx.readQueue ==>
      e.dst in ctx.trace.memory && e.dstOffset + e.bitCount <= 8 * e.dst.Length
    requires InRange(ctx.readQueue, ctx.readBuffer.Length)
    modifies ctx`readQueue, ctx.trace.memory
    ensures ctx.readQueue == []
    ensures forall a :: a in ctx.trace.memory ==>
      a[..] == Stored(a, old(a[..]), QueueWrites(old(ctx.readQueue), ctx.readBuffer[..]))
  {
    hide Stored, QueueWrites, EntryWrites, Ring, EntriesOf;
    var queue := OnRing(ctx.readQueue);
    queue.Execute(ctx.readBuffer, ctx.trace.memory);
    ctx.readQueue := [];
  }

  lemma EntriesRest(ring: seq<Node>)
    requires |ring| > 1 && forall i :: 1 <= i < |ring| ==> ring[i].entry.Some?
    ensures var r := [ring[0]] + ring[2..];
      (forall i :: 1 <= i < |r| ==> r[i].entry.Some?) && EntriesOf(r) == EntriesOf(ring)[1..]
  {
    var r := [ring[0]] + ring[2..];
    assert forall i :: 1 <= i < |r| ==> r[i] == ring[i + 1];
    var a, b := EntriesOf(r), EntriesOf(ring)[1..];
    forall i | 0 <= i < |a| ensures a[i] == b[i] {
      assert r[i + 1] == ring[i + 2];
    }
  }

  lemma FirstEntry(ring: seq<Node>)
    requires |ring| > 1 && forall i :: 1 <= i < |ring| ==> ring[i].entry.Some?
    ensures |EntriesOf(ring)| == |ring| - 1 && EntriesOf(ring)[0] == ring[1].entry.value
  {
  }

  lemma NoEntries(ring: seq<Node>)
    requires |ring| == 1
    ensures EntriesOf(ring) == []
  {
  }

  lemma NothingCopied(mem: map<array<byte>, seq<byte>>, ws: seq<Write>)
    requires ws == [] && forall a :: a in mem ==> a[..] == mem[a]
    ensures Holds(mem, ws)
  {
  }

  lemma AllCopied(mem: map<array<byte>, seq<byte>>, ws: seq<Write>)
    requires Holds(mem, ws)
    ensures forall a :: a in mem ==> a[..] == Stored(a, mem[a], ws)
  {
    hide Stored;
  }

  /** What is left of a ring when elements have been taken off the front. */
  ghost predicate Rest(ring: seq<Node>, whole: seq<Node>) {
    |ring| >= 1 && forall i :: 0 <= i < |ring| ==> ring[i] in whole
  }

  lemma RestRest(ring: seq<Node>, whole: seq<Node>)
    requires Rest(ring, whole) && |ring| > 1
    ensures Rest([ring[0]] + ring[2..], whole)
  {
  }

  lemma FirstOf(ring: seq<Node>)
    requires Ring(ring)
    ensures |ring| >= 1 && ring[0].next == if |ring| > 1 then ring[1] else ring[0]
    ensures forall i :: 0 <= i < |ring| ==> ring[i].next != null
    ensures |ring| > 1 ==> ring[1] != ring[0]
  {
  }

  lemma SecondOf(ring: seq<Node>)
    requires Ring(ring) && |ring| > 1
    ensures ring[1].next == if |ring| > 2 then ring[2] else ring[0]
  {
  }

  lemma EntriesMore(ring: seq<Node>, qe: Node)
    requires ring != [] && qe.entry.Some? && forall i :: 1 <= i < |ring| ==> ring[i].entry.Some?
    ensures var r := ring + [qe];
      (forall i :: 1 <= i < |r| ==> r[i].entry.Some?) && EntriesOf(r) == EntriesOf(ring) + [qe.entry.value]
  {
  }
}
