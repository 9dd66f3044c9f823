/**
 * hackbench's bookkeeping without the processes: the child table that
 * `group` and `main` fill, the number of packets each receiver waits for
 * against the messages the senders of its group write, and the readiness
 * handshake. Every count is an `unsigned int`, so sums and products are
 * reduced modulo 2^32; exact properties are stated for the sizes where no
 * reduction happens.
 */
module HackbenchLayout {

  import opened CInt

  /**
   * What a child runs. A pipe (or socket pair) is named by the slot of the
   * receiver that reads it, so a sender's `out_fds` is a list of slots.
   */
  datatype Role = Receiver(packets: nat) | Sender(outFds: seq<nat>)

  /** `create_worker(&child[slot], ctx, role)`. */
  datatype Spawn = Spawn(slot: nat, role: Role)

  /** `ctx->num_packets = num_fds * loops` as written: an `unsigned int` product. */
  function PacketsAsWritten(numFds: nat, loops: nat): nat {
    Wrap32(numFds * loops)
  }

  /**
   * The count the line was evidently meant to compute: one message from each
   * of the `num_fds` senders of the group in each of the `loops` rounds, as
   * an `unsigned long` product of the two `unsigned int` factors (and an
   * `unsigned long` loop counter in `receiver`).
   */
  function PacketsCorrected(numFds: nat, loops: nat): (r: nat)
    requires numFds < U32 && loops < U32
    ensures r == numFds * loops
  {
    MulLe(numFds, U32 - 1, loops);
    MulLe(loops, U32 - 1, U32 - 1);
    Wrap64(numFds * loops)
  }

  /**
   * The `unsigned int` product overflows for `-l 300000000` with the default
   * 20 descriptors: receivers stop reading long before the senders stop
   * writing.
   */
  lemma PacketsAsWrittenFallsShort()
    ensures PacketsAsWritten(20, 300000000) == 1705032704
    ensures PacketsCorrected(20, 300000000) == 6000000000
  {
  }

  /** The receivers' pipes of a group starting at `tabOffset`, in the order `out_fds` lists them. */
  function ReceiverSlots(tabOffset: nat, numFds: nat): (slots: seq<nat>)
    ensures |slots| == numFds
    ensures forall j :: 0 <= j < numFds ==> slots[j] == Wrap32(tabOffset + j)
  {
    seq<nat>(numFds, j => Wrap32(tabOffset + j))
  }

  /** The children one call of `group` creates, in creation order. */
  predicate IsGroup(spawns: seq<Spawn>, tabOffset: nat, numFds: nat, packets: nat) {
    && |spawns| == 2 * numFds
    && forall k :: 0 <= k < |spawns| ==> spawns[k] == GroupMember(tabOffset, numFds, packets, k)
  }

  /**
   * Child `k` of a group whose receivers each wait for `packets` messages:
   * receiver `k` at `tab_offset + k` for `k < num_fds`, otherwise sender
   * `k - num_fds` at `tab_offset + num_fds + (k - num_fds)`.
   */
  function GroupMember(tabOffset: nat, numFds: nat, packets: nat, k: nat): Spawn {
    if k < numFds then Spawn(Wrap32(tabOffset + k), Receiver(packets))
    else Spawn(Wrap32(tabOffset + k), Sender(ReceiverSlots(tabOffset, numFds)))
  }

  /**
   * `group(child, tab_offset, num_fds, ...)`: `num_fds` receivers at
   * `tab_offset + i`, then `num_fds` senders at `tab_offset + num_fds + i`
   * sharing one context that lists every receiver's pipe; each receiver
   * waits for `num_fds * loops` packets computed in `unsigned int`, and the
   * call returns `num_fds * 2`. When the slots do not wrap, the group fills exactly the
   * slots `tab_offset .. tab_offset + 2 * num_fds - 1`, each once.
   */
  method Group(tabOffset: nat, numFds: nat, loops: nat) returns (spawns: seq<Spawn>, count: nat)
    requires tabOffset < U32 && numFds < U32
    ensures IsGroup(spawns, tabOffset, numFds, PacketsAsWritten(numFds, loops))
    ensures count == Wrap32(numFds * 2)
    ensures tabOffset + 2 * numFds <= U32 ==> forall k :: 0 <= k < |spawns| ==> spawns[k].slot == tabOffset + k
  {
    spawns := [];
    var packets := PacketsAsWritten(numFds, loops);
    var outFds: seq<nat> := [];
    var i := 0;
    while i < numFds
      invariant 0 <= i <= numFds
      invariant |spawns| == i && |outFds| == i
      invariant forall k :: 0 <= k < i ==> spawns[k] == GroupMember(tabOffset, numFds, packets, k)
      invariant forall j :: 0 <= j < i ==> outFds[j] == Wrap32(tabOffset + j)
    {
      spawns := spawns + [Spawn(Wrap32(tabOffset + i), Receiver(packets))];
      outFds := outFds + [Wrap32(tabOffset + i)];
      i := i + 1;
    }
    assert outFds == ReceiverSlots(tabOffset, numFds);
    i := 0;
    while i < numFds
      invariant 0 <= i <= numFds
      invariant |spawns| == numFds + i
      invariant forall k :: 0 <= k < |spawns| ==> spawns[k] == GroupMember(tabOffset, numFds, packets, k)
    {
      spawns := spawns + [Spawn(Wrap32(tabOffset + numFds + i), Sender(outFds))];
      i := i + 1;
    }
    count := Wrap32(numFds * 2);
  }

  /** The task count `main` prints, `num_groups * (num_fds * 2)` in `unsigned int`. */
  function TaskCount(numGroups: nat, numFds: nat): nat {
    Wrap32(numGroups * Wrap32(numFds * 2))
  }

  /** The element count `main` passes to `calloc`, `num_fds * 2 * num_groups` in `unsigned int`. */
  function TableSize(numGroups: nat, numFds: nat): nat {
    Wrap32(Wrap32(numFds * 2) * numGroups)
  }

  /**
   * `main`'s group loop: `total_children` advances by each group's count.
   * The total always equals the printed task count and the table size; when
   * the number of children fits an `unsigned int`, the children occupy
   * exactly the slots 0 .. total - 1, so every slot is inside the table.
   */
  method SpawnAll(numGroups: nat, numFds: nat, loops: nat) returns (spawns: seq<Spawn>, total: nat)
    requires numGroups < U32 && numFds < U32
    ensures |spawns| == numGroups * (2 * numFds)
    ensures total == TaskCount(numGroups, numFds) && total == TableSize(numGroups, numFds)
    ensures numGroups * (2 * numFds) < U32 ==>
              total == |spawns| && forall k :: 0 <= k < |spawns| ==> spawns[k].slot == k
  {
    spawns := [];
    total := 0;
    var g := 0;
    ghost var full := numGroups * (2 * numFds);
    while g < numGroups
      invariant 0 <= g <= numGroups
      invariant |spawns| == g * (2 * numFds) && total == Wrap32(|spawns|)
      invariant full < U32 ==> forall k :: 0 <= k < |spawns| ==> spawns[k].slot == k
    {
      NextGroupStart(g, numGroups, 2 * numFds);
      spawns, total := AddGroup(spawns, total, numFds, loops, full < U32);
      g := g + 1;
    }
    TotalIsTaskCount(numGroups, numFds);
  }

  /**
   * One turn of the group loop: `group(child_tab, total_children, ...)`
   * fills the next slots and `total_children += c` advances the total,
   * modulo 2^32 like the `unsigned int` it is.
   */
  method AddGroup(spawns: seq<Spawn>, total: nat, numFds: nat, loops: nat, ghost fits: bool)
    returns (spawns': seq<Spawn>, total': nat)
    requires numFds < U32 && total == Wrap32(|spawns|)
    requires fits ==> |spawns| + 2 * numFds < U32
    requires fits ==> forall k :: 0 <= k < |spawns| ==> spawns[k].slot == k
    ensures |spawns'| == |spawns| + 2 * numFds && total' == Wrap32(|spawns'|)
    ensures fits ==> forall k :: 0 <= k < |spawns'| ==> spawns'[k].slot == k
  {
    var group, count := Group(total, numFds, loops);
    if fits {
      AppendGroup(spawns, group, numFds, PacketsAsWritten(numFds, loops));
    }
    spawns' := spawns + group;
    Wrap32Add(|spawns|, 2 * numFds);
    total' := Wrap32(total + count);
  }

  /** The slots of the next group start `width` further on and stay within all groups' slots. */
  lemma NextGroupStart(g: nat, numGroups: nat, width: nat)
    requires g < numGroups
    ensures (g + 1) * width == g * width + width
    ensures g * width + width <= numGroups * width
  {
    MulLe(g + 1, numGroups, width);
  }

  /** A group placed right after the slots already filled continues the numbering. */
  lemma AppendGroup(spawns: seq<Spawn>, group: seq<Spawn>, numFds: nat, packets: nat)
    requires forall k :: 0 <= k < |spawns| ==> spawns[k].slot == k
    requires |spawns| + 2 * numFds < U32
    requires IsGroup(group, |spawns|, numFds, packets)
    ensures forall k :: 0 <= k < |spawns + group| ==> (spawns + group)[k].slot == k
  {
    forall k | 0 <= k < |spawns + group|
      ensures (spawns + group)[k].slot == k
    {
      if k >= |spawns| {
        assert (spawns + group)[k] == group[k - |spawns|];
      }
    }
  }

  /** The running total, the printed task count and the table size agree, wrapped or not. */
  lemma TotalIsTaskCount(numGroups: nat, numFds: nat)
    ensures TaskCount(numGroups, numFds) == Wrap32(numGroups * (2 * numFds))
    ensures TableSize(numGroups, numFds) == Wrap32(numGroups * (2 * numFds))
  {
    Wrap32Mul(numGroups, numFds * 2);
    assert Wrap32(numFds * 2) * numGroups == numGroups * Wrap32(numFds * 2);
  }

  /** How often `x` occurs in `xs`. */
  function Count(xs: seq<nat>, x: nat): nat {
    if |xs| == 0 then 0 else Count(xs[..|xs| - 1], x) + (if xs[|xs| - 1] == x then 1 else 0)
  }

  /** `xs` written `k` times over. */
  function Repeat(xs: seq<nat>, k: nat): seq<nat> {
    if k == 0 then [] else Repeat(xs, k - 1) + xs
  }

  /**
   * The pipes one sender writes a message to, in order: for each of the
   * `loops` rounds, every pipe of `out_fds` once.
   */
  function SenderWrites(outFds: seq<nat>, loops: nat): seq<nat> {
    Repeat(outFds, loops)
  }

  /** The messages all senders among `spawns` write, sender by sender. */
  function AllWrites(spawns: seq<Spawn>, loops: nat): seq<nat> {
    if |spawns| == 0 then []
    else
      var last := spawns[|spawns| - 1];
      AllWrites(spawns[..|spawns| - 1], loops)
        + match last.role
          case Sender(outFds) => SenderWrites(outFds, loops)
          case Receiver(_) => []
  }

  /**
   * In a group whose slots do not wrap, the group's senders write
   * `num_fds * loops` messages to each receiver's pipe, whatever count the
   * receivers were given.
   */
  lemma MessagesPerReceiver(spawns: seq<Spawn>, tabOffset: nat, numFds: nat, packets: nat, loops: nat, i: nat)
    requires IsGroup(spawns, tabOffset, numFds, packets)
    requires tabOffset + 2 * numFds <= U32
    requires i < numFds
    ensures Count(AllWrites(spawns, loops), spawns[i].slot) == numFds * loops
  {
    var slots := ReceiverSlots(tabOffset, numFds);
    var r := spawns[i].slot;
    assert r == slots[i];
    SlotsDistinct(tabOffset, numFds, i);
    CountRepeat(slots, loops, r);
    ReceiversWriteNothing(spawns[..numFds], loops);
    SendersWrite(spawns, numFds, slots, loops, r, numFds);
    assert spawns[..numFds + numFds] == spawns;
  }

  /**
   * The receivers `group` creates wait for the number of messages their
   * senders write reduced modulo 2^32, which is that number exactly when
   * `num_fds * loops` fits an `unsigned int`; otherwise they stop early and
   * leave messages unread.
   */
  lemma ReceiversGetWhatSendersWrite(spawns: seq<Spawn>, tabOffset: nat, numFds: nat, loops: nat, i: nat)
    requires IsGroup(spawns, tabOffset, numFds, PacketsAsWritten(numFds, loops))
    requires tabOffset + 2 * numFds <= U32
    requires i < numFds
    ensures var written := Count(AllWrites(spawns, loops), spawns[i].slot);
            && spawns[i].role.packets == Wrap32(written)
            && (spawns[i].role.packets == written <==> numFds * loops < U32)
            && spawns[i].role.packets <= written
  {
    MessagesPerReceiver(spawns, tabOffset, numFds, PacketsAsWritten(numFds, loops), loops, i);
    var written := numFds * loops;
    if written >= U32 {
      assert Wrap32(written) < U32 <= written;
    } else {
      assert Wrap32(written) == written;
    }
    assert Wrap32(written) <= written by {
      assert written % U32 <= written;
    }
  }

  /**
   * With the count computed as `unsigned long`, every receiver waits for
   * exactly the messages its group's senders write to its pipe, for all
   * `unsigned int` descriptor and loop counts.
   */
  lemma CorrectedReceiversGetAll(spawns: seq<Spawn>, tabOffset: nat, numFds: nat, loops: nat, i: nat)
    requires numFds < U32 && loops < U32
    requires IsGroup(spawns, tabOffset, numFds, PacketsCorrected(numFds, loops))
    requires tabOffset + 2 * numFds <= U32
    requires i < numFds
    ensures spawns[i].role.packets == Count(AllWrites(spawns, loops), spawns[i].slot)
  {
    MessagesPerReceiver(spawns, tabOffset, numFds, PacketsCorrected(numFds, loops), loops, i);
  }

  /** Receivers contribute no messages. */
  lemma {:induction false} ReceiversWriteNothing(spawns: seq<Spawn>, loops: nat)
    requires forall k :: 0 <= k < |spawns| ==> spawns[k].role.Receiver?
    ensures AllWrites(spawns, loops) == []
  {
    if |spawns| > 0 {
      ReceiversWriteNothing(spawns[..|spawns| - 1], loops);
    }
  }

  /** The first `n` senders after `numFds` receivers write `n * loops` messages to a pipe listed once. */
  lemma {:induction false} SendersWrite(spawns: seq<Spawn>, numFds: nat, slots: seq<nat>, loops: nat, r: nat, n: nat)
    requires numFds + n <= |spawns|
    requires forall k :: numFds <= k < numFds + n ==> spawns[k].role == Sender(slots)
    requires Count(AllWrites(spawns[..numFds], loops), r) == 0
    requires Count(SenderWrites(slots, loops), r) == loops
    ensures Count(AllWrites(spawns[..numFds + n], loops), r) == n * loops
  {
    if n > 0 {
      SendersWrite(spawns, numFds, slots, loops, r, n - 1);
      var prefix := spawns[..numFds + n];
      assert prefix[..|prefix| - 1] == spawns[..numFds + n - 1];
      assert prefix[|prefix| - 1].role == Sender(slots);
      assert AllWrites(prefix, loops) == AllWrites(spawns[..numFds + n - 1], loops) + SenderWrites(slots, loops);
      CountAppend(AllWrites(spawns[..numFds + n - 1], loops), SenderWrites(slots, loops), r);
      assert n * loops == (n - 1) * loops + loops;
    }
  }

  /** Counting distributes over concatenation. */
  lemma {:induction false} CountAppend(a: seq<nat>, b: seq<nat>, x: nat)
    ensures Count(a + b, x) == Count(a, x) + Count(b, x)
    decreases |b|
  {
    if |b| == 0 {
      assert a + b == a;
    } else {
      assert (a + b)[..|a + b| - 1] == a + b[..|b| - 1];
      CountAppend(a, b[..|b| - 1], x);
    }
  }

  /** An element listed once occurs `k` times in the list written `k` times. */
  lemma {:induction false} CountRepeat(xs: seq<nat>, k: nat, x: nat)
    requires Count(xs, x) == 1
    ensures Count(Repeat(xs, k), x) == k
  {
    if k > 0 {
      CountRepeat(xs, k - 1, x);
      CountAppend(Repeat(xs, k - 1), xs, x);
    }
  }

  /** Without wrap-around, each receiver's pipe appears once among the group's pipes. */
  lemma SlotsDistinct(tabOffset: nat, numFds: nat, i: nat)
    requires tabOffset + numFds <= U32 && i < numFds
    ensures Count(ReceiverSlots(tabOffset, numFds), tabOffset + i) == 1
  {
    CountOfIncreasing(ReceiverSlots(tabOffset, numFds), tabOffset, i);
  }

  /** In the run `base, base + 1, ...` the element `base + i` occurs once. */
  lemma {:induction false} CountOfIncreasing(xs: seq<nat>, base: nat, i: nat)
    requires forall j :: 0 <= j < |xs| ==> xs[j] == base + j
    requires i < |xs|
    ensures Count(xs, base + i) == 1
  {
    var init := xs[..|xs| - 1];
    if i < |init| {
      CountOfIncreasing(init, base, i);
    } else {
      CountAbsent(init, base + i);
    }
  }

  lemma {:induction false} CountAbsent(xs: seq<nat>, x: nat)
    requires forall j :: 0 <= j < |xs| ==> xs[j] < x
    ensures Count(xs, x) == 0
  {
    if |xs| > 0 {
      CountAbsent(xs[..|xs| - 1], x);
    }
  }

  /**
   * `main`'s start barrier: it reads one readiness byte per child it
   * counted, then writes the single wake byte. A read finds a byte only if a
   * worker has written one; the model stops where the blocking read would
   * wait forever.
   */
  method AwaitReady(total: nat, tokens: nat) returns (consumed: nat, woke: bool)
    ensures woke <==> total <= tokens
    ensures consumed == Min(total, tokens)
    ensures consumed <= tokens
  {
    consumed := 0;
    while consumed < total
      invariant consumed <= total && consumed <= tokens
      decreases total - consumed
    {
      if consumed == tokens {
        return consumed, false;
      }
      consumed := consumed + 1;
    }
    woke := true;
  }

  /**
   * Every child writes one readiness byte before it waits, so `main`, which
   * counts at most as many children as it created, is never left waiting:
   * the barrier releases with `total_children` bytes read.
   */
  lemma MainIsReleased(numGroups: nat, numFds: nat)
    ensures TaskCount(numGroups, numFds) <= numGroups * (2 * numFds)
    ensures numGroups * (2 * numFds) < U32 ==> TaskCount(numGroups, numFds) == numGroups * (2 * numFds)
  {
    TotalIsTaskCount(numGroups, numFds);
  }

  /**
   * The start of a run: every child created writes one readiness byte, and
   * `main` reads `total_children` of them before it writes the one wake
   * byte. The barrier always opens; it reads every byte exactly when the
   * number of children fits an `unsigned int`, and otherwise leaves the
   * bytes of the children the wrapped total does not count unread.
   */
  method StartUp(numGroups: nat, numFds: nat, loops: nat) returns (consumed: nat, unread: nat, wakeBytes: nat)
    requires numGroups < U32 && numFds < U32
    ensures consumed == TaskCount(numGroups, numFds) && wakeBytes == 1
    ensures consumed + unread == numGroups * (2 * numFds)
    ensures numGroups * (2 * numFds) < U32 ==> unread == 0
  {
    var spawns, total := SpawnAll(numGroups, numFds, loops);
    var tokens := |spawns|;
    MainIsReleased(numGroups, numFds);
    var woke;
    consumed, woke := AwaitReady(total, tokens);
    unread := tokens - consumed;
    wakeBytes := 0;
    if woke {
      wakeBytes := 1;
    }
  }
}
