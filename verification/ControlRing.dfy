/** One ring of the control SHM, in place in the shared region. */
module ControlRing {
  import opened Bytes
  import opened RingSpec
  import opened RingQueue

  method WriteAt(a: array<Byte>, at: nat, bs: seq<Byte>)
    requires at + |bs| <= a.Length
    modifies a
    ensures a[..] == Store(old(a[..]), at, bs)
  {
    for i := 0 to |bs|
      invariant forall k :: 0 <= k < i ==> a[at + k] == bs[k]
      invariant forall k :: 0 <= k < a.Length && !(at <= k < at + i) ==> a[k] == old(a[k])
    {
      a[at + i] := bs[i];
    }
  }

  lemma StoreTwice(b: seq<Byte>, at: nat, x: seq<Byte>, y: seq<Byte>)
    requires at + |x| + |y| <= |b|
    ensures Store(Store(b, at, x), at + |x|, y) == Store(b, at, x + y)
  {
  }

  lemma StoreInside(b: seq<Byte>, off: nat, len: nat, at: nat, bs: seq<Byte>)
    requires off + len <= |b| && at + |bs| <= len
    ensures Store(b, off + at, bs)[off..off + len] == Store(b[off..off + len], at, bs)
    ensures forall k :: 0 <= k < |b| && !(off <= k < off + len) ==> Store(b, off + at, bs)[k] == b[k]
  {
    var s, t := Store(b, off + at, bs)[off..off + len], Store(b[off..off + len], at, bs);
    assert forall k :: 0 <= k < len ==> s[k] == t[k];
  }

  class Ring {
    const region: array<Byte>
    const off: nat
    const len: nat
    var prod: nat
    var cons: nat

    ghost predicate InRegion() {
      off + len <= region.Length
    }

    ghost function State(): RingState
      requires InRegion()
      reads this, region
    {
      RingState(region[off..off + len], prod, cons)
    }

    ghost predicate Ok()
      reads this, region
    {
      InRegion() && Valid(State())
    }

    constructor (region: array<Byte>, off: nat, len: nat)
      requires off + len <= region.Length && 0 < len && len % 16 == 0
      ensures this.region == region && this.off == off && this.len == len
      ensures Ok() && State() == RingState(region[off..off + len], 0, 0) && Queue(State()) == []
    {
      this.region, this.off, this.len := region, off, len;
      this.prod, this.cons := 0, 0;
    }

    /** Copies `bs` into the ring at ring offset `at`. */
    method Poke(at: nat, bs: seq<Byte>)
      requires InRegion() && at + |bs| <= len
      modifies region
      ensures State() == old(State()).(mem := Store(old(State()).mem, at, bs))
      ensures forall k :: 0 <= k < region.Length && !(off <= k < off + len) ==> region[k] == old(region[k])
    {
      hide Store;
      StoreInside(region[..], off, len, at, bs);
      Regions(region, off, len);
      WriteAt(region, off + at, bs);
      Regions(region, off, len);
    }

    /** Writes the entry's header and payload at ring offset `at`. */
    method PokeEntry(at: nat, e: Entry)
      requires InRegion() && at + |EntryBytes(e)| <= len
      modifies region
      ensures State() == old(State()).(mem := Store(old(State()).mem, at, EntryBytes(e)))
      ensures forall k :: 0 <= k < region.Length && !(off <= k < off + len) ==> region[k] == old(region[k])
    {
      hide Store, HeaderBytes;
      StoreTwice(State().mem, at, HeaderBytes(e.kind, |e.payload|, e.tag), e.payload);
      Poke(at, HeaderBytes(e.kind, |e.payload|, e.tag));
      Poke(at + HDR, e.payload);
    }

    /** The stores of an accepted push, and the position update that publishes them. */
    method Publish(p: Placement, e: Entry)
      requires InRegion() && Inside(p, len, e)
      modifies this`prod, region
      ensures State() == RingState(Written(old(State()).mem, p, e),
                                   old(prod) + Advance(p, EntryTotal(|e.payload|)), old(cons))
      ensures forall k :: 0 <= k < region.Length && !(off <= k < off + len) ==> region[k] == old(region[k])
    {
      hide Store, HeaderBytes, EntryBytes;
      if p.Padded? {
        Poke(p.head, HeaderBytes(KIND_PAD, p.pad - HDR, 0));
        PokeEntry(0, e);
      } else {
        PokeEntry(p.head, e);
      }
      prod := prod + Advance(p, EntryTotal(|e.payload|));
    }

    /**
     * `push_cmd` and `push_rsp` after the sequence number is drawn. The push succeeds exactly when the entry
     * fits; a refusal says why and changes nothing, and bytes outside this ring are never touched.
     */
    method Push(kind: U32, tag: U64, payload: seq<Byte>) returns (r: Result<U64, Placement>)
      requires Ok()
      modifies this, region
      ensures r.Ok? <==> HasRoom(len, old(prod), old(cons), EntryTotal(|payload|))
      ensures r.Err? ==> RefusedFor(r.error, len, old(prod), old(cons), EntryTotal(|payload|))
      ensures var e := Entry(kind, tag, payload);
              var p := Placing(old(State()), e);
              if p.Accepted() then
                r == Result.Ok(tag) && State() == Pushed(old(State()), e)
              else
                r == Err(p) && State() == old(State())
      ensures forall k :: 0 <= k < region.Length && !(off <= k < off + len) ==> region[k] == old(region[k])
      ensures Sendable(Entry(kind, tag, payload)) ==>
                Ok() && Queue(State()) == old(Queue(State())) + if r.Ok? then [Entry(kind, tag, payload)] else []
    {
      var e := Entry(kind, tag, payload);
      ghost var s := State();
      hide Decode, Place, Written, Inside, HasRoom, RefusedFor, EntryTotal;
      var p := Place(len, prod, cons, EntryTotal(|payload|));
      PlacedIffRoom(len, prod, cons, EntryTotal(|payload|));
      if p.Accepted() {
        PlacedInside(len, prod, cons, e);
        Publish(p, e);
        if Sendable(e) {
          PushAppends(s, e);
        }
        r := Result.Ok(tag);
      } else {
        r := Err(p);
        assert Queue(s) + [] == Queue(s);
      }
    }

    /** Reads the record at ring offset `head`: a pad, an overrun, or an entry with its payload. */
    method ReadRecord(head: nat) returns (s: Step)
      requires InRegion() && head < len
      ensures s == RecordAt(State().mem, head)
    {
      hide ParseHeader, EntryTotal, RecordAt;
      RecordRead(State().mem, head);
      if head + HDR > len {
        return Bad;
      }
      Within(region, off, len, head, head + HDR);
      var hdr := ParseHeader(region[off + head..off + head + HDR]);
      if hdr.kind == KIND_PAD {
        return Skip(len - head);
      }
      var total := EntryTotal(hdr.len);
      if head + total > len {
        return Bad;
      }
      var payload := region[off + head + HDR..off + head + HDR + hdr.len];
      Within(region, off, len, head + HDR, head + HDR + hdr.len);
      return Take(Entry(hdr.kind, hdr.tag, payload), total);
    }

    /** `drain_cmds` and `drain_rsp_ring`: everything queued comes out, in order, and the ring is left empty. */
    method Drain() returns (out: seq<Entry>)
      requires Ok()
      modifies this`cons
      ensures out == old(Queue(State()))
      ensures Ok() && cons == prod && Queue(State()) == []
    {
      hide RecordAt, Decode;
      out := [];
      ghost var s := State();
      while prod != cons
        invariant Ok() && prod == s.prod
        invariant out + Queue(State()) == Queue(s)
        decreases prod - cons
      {
        ghost var before := State();
        ConsumeOne(before);
        var step := ReadRecord(cons % len);
        if step.Bad? {
          break;
        }
        cons := cons + step.advance;
        assert out + (Entries(step) + Queue(State())) == out + Entries(step) + Queue(State());
        out := out + Entries(step);
      }
      EmptyQueue(State());
    }

    /** `poll_rsp`, its deadline counted in loop rounds; the overrun error it can report never occurs. */
    method PollRsp(wanted: Option<U64>, rounds: nat) returns (found: Option<Entry>, overrun: bool)
      requires Ok()
      modifies this`cons
      ensures var r := Poll(old(State()), wanted, rounds); State() == r.state && found == r.found
      ensures Ok() && !overrun
      ensures exists dropped :: old(Queue(State())) == dropped + Opt(found) + Queue(State())
                                && forall e :: e in dropped ==> wanted.Some? && e.tag != wanted.value
      ensures found.Some? && wanted.Some? ==> found.value.tag == wanted.value
      ensures found.None? && old(prod - cons) <= 16 * rounds ==> Queue(State()) == []
    {
      hide RecordAt, Decode;
      ghost var s := State();
      PollMeaning(s, wanted, rounds);
      var left := rounds;
      found, overrun := None, false;
      while left != 0
        invariant found.None? && !overrun
        invariant Ok() && Poll(State(), wanted, left).(dropped := []) == Poll(s, wanted, rounds).(dropped := [])
        decreases left
      {
        if prod != cons {
          ConsumeOne(State());
          var step := ReadRecord(cons % len);
          overrun := step.Bad?;
          if overrun {
            break;
          }
          cons := cons + step.advance;
          if step.Take? && Matches(wanted, step.entry) {
            found := Some(step.entry);
            return;
          }
        }
        left := left - 1;
      }
    }
  }

  /** What a record is, by the slices it is read from. */
  lemma RecordRead(mem: seq<Byte>, head: nat)
    requires head < |mem|
    ensures head + HDR > |mem| ==> RecordAt(mem, head) == Bad
    ensures head + HDR <= |mem| ==>
              var hdr := ParseHeader(mem[head..head + HDR]);
              && (hdr.kind == KIND_PAD ==> RecordAt(mem, head) == Skip(|mem| - head))
              && (hdr.kind != KIND_PAD && head + EntryTotal(hdr.len) > |mem| ==> RecordAt(mem, head) == Bad)
              && (hdr.kind != KIND_PAD && head + EntryTotal(hdr.len) <= |mem| ==>
                    RecordAt(mem, head) == Take(Entry(hdr.kind, hdr.tag, mem[head + HDR..head + HDR + hdr.len]),
                                                EntryTotal(hdr.len)))
  {
    hide ParseHeader, EntryTotal;
  }

  lemma Regions(a: array<Byte>, off: nat, len: nat)
    requires off + len <= a.Length
    ensures a[..][off..off + len] == a[off..off + len]
    ensures forall k :: 0 <= k < a.Length ==> a[..][k] == a[k]
  {
  }

  lemma Within(a: array<Byte>, off: nat, len: nat, i: nat, j: nat)
    requires off + len <= a.Length && i <= j <= len
    ensures a[off..off + len][i..j] == a[off + i..off + j]
  {
    var s, t := a[off..off + len][i..j], a[off + i..off + j];
    assert forall k :: 0 <= k < j - i ==> s[k] == t[k];
  }
}
