/** The control-SHM region: a header page and two rings in one shared byte array. */
module ControlShm {
  import opened Bytes
  import opened RingSpec
  import opened RingQueue
  import opened ControlRing
  import Modular
  import RingLayout

  /** `fetch_add(1)` on the 64-bit sequence counter. */
  function NextTag(t: U64): U64 {
    if t == 0xffff_ffff_ffff_ffff then 0 else t + 1
  }

  /** The number drawn after `n` others, from a counter that starts at `first`. */
  function TagAfter(first: U64, n: nat): U64 {
    if n == 0 then first else NextTag(TagAfter(first, n - 1))
  }

  lemma SmallTag(t: U64)
    ensures t % 0x1_0000_0000_0000_0000 == t
  {
    Modular.Unique(t, 0, t, 0x1_0000_0000_0000_0000);
  }

  lemma NextTagCounts(t: U64)
    ensures NextTag(t) == (t + 1) % 0x1_0000_0000_0000_0000
  {
    if t < 0xffff_ffff_ffff_ffff {
      Modular.Unique(t + 1, 0, t + 1, 0x1_0000_0000_0000_0000);
    }
  }

  /** The counter counts the commands modulo 2^64. */
  lemma {:induction false} TagCounts(first: U64, n: nat)
    ensures TagAfter(first, n) == (first + n) % 0x1_0000_0000_0000_0000
    decreases n
  {
    hide NextTag;
    SmallTag(first);
    if n > 0 {
      TagCounts(first, n - 1);
      NextTagCounts(TagAfter(first, n - 1));
      Modular.AddMod(first + n - 1, 1, 0x1_0000_0000_0000_0000);
    }
  }

  /** Two commands carry the same sequence number exactly when a multiple of 2^64 commands lies between them. */
  lemma TagsRepeatIff(first: U64, i: nat, j: nat)
    requires i <= j
    ensures TagAfter(first, i) == TagAfter(first, j) <==> (j - i) % 0x1_0000_0000_0000_0000 == 0
  {
    hide TagAfter;
    TagCounts(first, i);
    TagCounts(first, j);
    SameResidue(first + i, first + j, 0x1_0000_0000_0000_0000);
  }

  lemma SameResidue(a: nat, b: nat, n: nat)
    requires 0 < n && a <= b
    ensures a % n == b % n <==> (b - a) % n == 0
  {
    if a % n == b % n {
      assert n * (b / n - a / n) == n * (b / n) - n * (a / n);
      Modular.Unique(b - a, b / n - a / n, 0, n);
    }
    if (b - a) % n == 0 {
      assert n * (a / n + (b - a) / n) == n * (a / n) + n * ((b - a) / n);
      Modular.Unique(b, a / n + (b - a) / n, a % n, n);
    }
  }

  /** So fewer than 2^64 successive commands carry pairwise different sequence numbers. */
  lemma TagsDistinct(first: U64, i: nat, j: nat)
    requires i < j < i + 0x1_0000_0000_0000_0000
    ensures TagAfter(first, i) != TagAfter(first, j)
  {
    hide TagAfter;
    TagsRepeatIff(first, i, j);
  }

  class Shm {
    const region: array<Byte>
    const cmd: Ring
    const rsp: Ring
    var nextTag: U64

    ghost predicate Ok()
      reads this, region, cmd, rsp
    {
      && cmd != rsp && cmd.region == region && rsp.region == region
      && RingLayout.SHM_HDR_SIZE <= cmd.off && cmd.off + cmd.len <= rsp.off
      && cmd.Ok() && rsp.Ok()
    }

    constructor (region: array<Byte>, cmd: Ring, rsp: Ring)
      requires cmd != rsp && cmd.region == region && rsp.region == region
      requires RingLayout.SHM_HDR_SIZE <= cmd.off && cmd.off + cmd.len <= rsp.off
      requires cmd.Ok() && rsp.Ok()
      ensures Ok() && nextTag == 1
      ensures this.region == region && this.cmd == cmd && this.rsp == rsp
    {
      this.region, this.cmd, this.rsp, this.nextTag := region, cmd, rsp, 1;
    }

    /** `ControlShm::create`: refused below the minimum size, otherwise two empty rings that fill the region. */
    static method Create(size: nat) returns (shm: Option<Shm>)
      ensures shm.Some? <==> 73728 <= size
      ensures shm.Some? ==>
                && fresh(shm.value) && shm.value.Ok() && shm.value.region.Length == size
                && shm.value.cmd.off == 4096 && shm.value.cmd.len == 65536 && shm.value.rsp.off == 69632
                && shm.value.rsp.off + shm.value.rsp.len <= size < shm.value.rsp.off + shm.value.rsp.len + 4096
                && Queue(shm.value.cmd.State()) == [] && Queue(shm.value.rsp.State()) == []
    {
      var layout := RingLayout.ComputeRingLayout(size);
      if layout.None? {
        return None;
      }
      var l := layout.value;
      var region := new Byte[size](_ => 0);
      var cmd := new Ring(region, l.cmdOff, l.cmdLen);
      var rsp := new Ring(region, l.rspOff, l.rspLen);
      var s := new Shm(region, cmd, rsp);
      return Some(s);
    }

    /** `push_cmd`: the sequence number is drawn even when the push is refused; the response ring is untouched. */
    method PushCmd(kind: U32, payload: seq<Byte>) returns (r: Result<U64, Placement>)
      requires Ok()
      modifies this`nextTag, cmd, region
      ensures nextTag == (old(nextTag) + 1) % 0x1_0000_0000_0000_0000
      ensures r.Ok? ==> r.value == old(nextTag)
      ensures r.Ok? <==> HasRoom(cmd.len, old(cmd.prod), old(cmd.cons), EntryTotal(|payload|))
      ensures r.Err? ==> RefusedFor(r.error, cmd.len, old(cmd.prod), old(cmd.cons), EntryTotal(|payload|))
      ensures rsp.State() == old(rsp.State()) && region[..cmd.off] == old(region[..cmd.off])
      ensures Sendable(Entry(kind, old(nextTag), payload)) ==>
                && Ok()
                && Queue(cmd.State())
                   == old(Queue(cmd.State())) + if r.Ok? then [Entry(kind, old(nextTag), payload)] else []
    {
      hide Valid, Queue, Pushed, Placing, Sendable, HasRoom, RefusedFor, EntryTotal;
      r := cmd.Push(kind, nextTag, payload);
      assert region[rsp.off..rsp.off + rsp.len] == old(region[rsp.off..rsp.off + rsp.len]);
      nextTag := NextTag(nextTag);
    }

    /** `push_rsp`: the command ring is untouched. */
    method PushRsp(kind: U32, tag: U64, payload: seq<Byte>) returns (r: Result<U64, Placement>)
      requires Ok()
      modifies rsp, region
      ensures r.Ok? <==> HasRoom(rsp.len, old(rsp.prod), old(rsp.cons), EntryTotal(|payload|))
      ensures r.Err? ==> RefusedFor(r.error, rsp.len, old(rsp.prod), old(rsp.cons), EntryTotal(|payload|))
      ensures cmd.State() == old(cmd.State()) && region[..cmd.off] == old(region[..cmd.off])
      ensures Sendable(Entry(kind, tag, payload)) ==>
                && Ok()
                && Queue(rsp.State())
                   == old(Queue(rsp.State())) + if r.Ok? then [Entry(kind, tag, payload)] else []
    {
      hide Valid, Queue, Pushed, Placing, Sendable, HasRoom, RefusedFor, EntryTotal;
      r := rsp.Push(kind, tag, payload);
      assert region[cmd.off..cmd.off + cmd.len] == old(region[cmd.off..cmd.off + cmd.len]);
    }
  }
}
