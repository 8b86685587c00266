/** Folding per-target aggregation snapshots into one cross-target row. */
module AggSpec {
  import opened Bytes
  import Modular

  type I64 = x: int | -0x8000_0000_0000_0000 <= x < 0x8000_0000_0000_0000
  type Text = seq<Byte>

  datatype Kind = Count | Sum | Min | Max | Quantize | Lquantize

  datatype Bucket = Bucket(at: I64, count: U64)

  datatype Value = Scalar(v: I64) | Histogram(buckets: seq<Bucket>)

  datatype Cell = Cell(kind: Kind, value: Value, contributors: map<Text, Value>)

  /** One snapshot from one target. */
  datatype Snapshot = Snapshot(target: Text, kind: Kind, value: Value)

  predicate IsHist(k: Kind) {
    k.Quantize? || k.Lquantize?
  }

  /** Two's-complement wrap-around of a signed 64-bit sum. */
  function WrapI64(x: int): (r: I64)
    ensures (x - r) % 0x1_0000_0000_0000_0000 == 0
  {
    (x + 0x8000_0000_0000_0000) % 0x1_0000_0000_0000_0000 - 0x8000_0000_0000_0000
  }

  function WrapU64(x: int): (r: U64)
    ensures (x - r) % 0x1_0000_0000_0000_0000 == 0
  {
    x % 0x1_0000_0000_0000_0000
  }

  function EmptyValue(k: Kind): Value {
    match k
    case Count => Scalar(0)
    case Sum => Scalar(0)
    case Min => Scalar(0x7fff_ffff_ffff_ffff)
    case Max => Scalar(-0x8000_0000_0000_0000)
    case Quantize => Histogram([])
    case Lquantize => Histogram([])
  }

  // ---------------------------------------------------------------- ordered bucket maps

  /** Inserting or overwriting a key of an ordered map. */
  function Put(h: seq<Bucket>, b: Bucket): seq<Bucket> {
    if |h| == 0 || b.at < h[0].at then [b] + h
    else if b.at == h[0].at then [b] + h[1..]
    else [h[0]] + Put(h[1..], b)
  }

  /** Adding to a key of an ordered map, which starts from zero when absent. */
  function Add(h: seq<Bucket>, b: Bucket): seq<Bucket> {
    if |h| == 0 || b.at < h[0].at then [b] + h
    else if b.at == h[0].at then [Bucket(b.at, WrapU64(h[0].count + b.count))] + h[1..]
    else [h[0]] + Add(h[1..], b)
  }

  /** Collecting a bucket list into an ordered map. */
  function Collect(v: seq<Bucket>): seq<Bucket> {
    if |v| == 0 then [] else Put(Collect(v[..|v| - 1]), v[|v| - 1])
  }

  function AddAll(h: seq<Bucket>, v: seq<Bucket>): seq<Bucket> {
    if |v| == 0 then h else Add(AddAll(h, v[..|v| - 1]), v[|v| - 1])
  }

  ghost predicate Ascending(h: seq<Bucket>) {
    forall i, j :: 0 <= i < j < |h| ==> h[i].at < h[j].at
  }

  predicate Has(h: seq<Bucket>, at: int) {
    |h| > 0 && (h[0].at == at || Has(h[1..], at))
  }

  function Lookup(h: seq<Bucket>, at: int): nat {
    if |h| == 0 then 0 else if h[0].at == at then h[0].count else Lookup(h[1..], at)
  }

  lemma {:induction false} HasMember(h: seq<Bucket>, at: int)
    ensures Has(h, at) <==> exists i :: 0 <= i < |h| && h[i].at == at
    ensures !Has(h, at) ==> Lookup(h, at) == 0
    decreases |h|
  {
    if |h| > 0 {
      HasMember(h[1..], at);
      if i :| 0 <= i < |h| && h[i].at == at {
        if i > 0 {
          assert h[1..][i - 1].at == at;
        }
      }
      if j :| 0 <= j < |h[1..]| && h[1..][j].at == at {
        assert h[j + 1].at == at;
      }
    }
  }

  lemma {:induction false} LookupAt(h: seq<Bucket>, i: nat)
    requires Ascending(h) && i < |h|
    ensures Has(h, h[i].at) && Lookup(h, h[i].at) == h[i].count
    decreases |h|
  {
    if i > 0 {
      LookupAt(h[1..], i - 1);
    }
  }

  lemma NothingMapped(h: seq<Bucket>)
    requires forall at: int :: !Has(h, at)
    ensures h == []
  {
    assert h != [] ==> Has(h, h[0].at);
  }

  /** An ascending bucket list is determined by what it maps. */
  lemma {:induction false} AscendingUnique(g: seq<Bucket>, h: seq<Bucket>)
    requires Ascending(g) && Ascending(h)
    requires forall at: int :: Has(g, at) == Has(h, at) && Lookup(g, at) == Lookup(h, at)
    ensures g == h
    decreases |g|
  {
    if g == [] {
      assert forall at: int :: Has(h, at) == Has(g, at);
      NothingMapped(h);
    } else if h == [] {
      assert forall at: int :: Has(g, at) == Has(h, at);
      NothingMapped(g);
    } else {
      LookupAt(g, 0);
      LookupAt(h, 0);
      HasMember(g, h[0].at);
      HasMember(h, g[0].at);
      assert Has(g, h[0].at) && Has(h, g[0].at);
      assert g[0] == h[0];
      forall at: int
        ensures Has(g[1..], at) == Has(h[1..], at) && Lookup(g[1..], at) == Lookup(h[1..], at)
      {
        assert Has(g, at) == Has(h, at) && Lookup(g, at) == Lookup(h, at);
        HasMember(g[1..], at);
        HasMember(h[1..], at);
      }
      AscendingUnique(g[1..], h[1..]);
      assert g == [g[0]] + g[1..] && h == [h[0]] + h[1..];
    }
  }

  lemma {:induction false} AddAscends(h: seq<Bucket>, b: Bucket)
    requires Ascending(h)
    ensures Ascending(Add(h, b))
    ensures Add(h, b)[0].at == if |h| == 0 || b.at < h[0].at then b.at else h[0].at
    decreases |h|
  {
    if |h| == 0 || b.at < h[0].at {
      ConsAscends(b, h);
    } else if h[0].at < b.at {
      AddAscends(h[1..], b);
      assert |h[1..]| > 0 ==> h[0].at < h[1..][0].at;
      ConsAscends(h[0], Add(h[1..], b));
    }
  }

  lemma ConsAscends(b: Bucket, h: seq<Bucket>)
    requires Ascending(h) && (|h| > 0 ==> b.at < h[0].at)
    ensures Ascending([b] + h)
  {
    var s := [b] + h;
    forall i, j | 0 <= i < j < |s|
      ensures s[i].at < s[j].at
    {
      assert s[j] == h[j - 1];
      assert i > 0 ==> s[i] == h[i - 1];
      assert j > 1 ==> h[0].at < h[j - 1].at;
    }
  }

  lemma WrapAdd(a: int, b: int)
    ensures WrapU64(WrapU64(a) + b) == WrapU64(a + b)
    ensures WrapI64(WrapI64(a) + b) == WrapI64(a + b)
  {
    Modular.AddMod(a, b, 0x1_0000_0000_0000_0000);
    Modular.AddMod(a + 0x8000_0000_0000_0000, b, 0x1_0000_0000_0000_0000);
  }

  lemma {:induction false} AddLookup(h: seq<Bucket>, b: Bucket, at: int)
    requires Ascending(h)
    ensures Has(Add(h, b), at) <==> Has(h, at) || at == b.at
    ensures Lookup(Add(h, b), at) == if at == b.at then WrapU64(Lookup(h, at) + b.count) else Lookup(h, at)
    decreases |h|
  {
    if |h| == 0 || b.at < h[0].at {
      assert ([b] + h)[1..] == h;
      HasMember(h, b.at);
    } else if h[0].at < b.at {
      AddLookup(h[1..], b, at);
      assert ([h[0]] + Add(h[1..], b))[1..] == Add(h[1..], b);
    } else {
      HasMember(h[1..], at);
    }
  }

  lemma {:induction false} PutLast(h: seq<Bucket>, b: Bucket)
    requires Ascending(h + [b])
    ensures Put(h, b) == h + [b]
    decreases |h|
  {
    var s := h + [b];
    if |h| > 0 {
      assert s[0].at < s[|h|].at;
      assert s[1..] == h[1..] + [b];
      PutLast(h[1..], b);
      assert [h[0]] + (h[1..] + [b]) == h + [b];
    }
  }

  /** Collecting an ascending list gives it back. */
  lemma {:induction false} CollectAscending(v: seq<Bucket>)
    requires Ascending(v)
    ensures Collect(v) == v
    decreases |v|
  {
    if |v| > 0 {
      var t := v[..|v| - 1];
      CollectAscending(t);
      assert t + [v[|v| - 1]] == v;
      PutLast(t, v[|v| - 1]);
    }
  }

  lemma {:induction false} AddAllAscends(h: seq<Bucket>, v: seq<Bucket>)
    requires Ascending(h)
    ensures Ascending(AddAll(h, v))
    decreases |v|
  {
    if |v| > 0 {
      AddAllAscends(h, v[..|v| - 1]);
      AddAscends(AddAll(h, v[..|v| - 1]), v[|v| - 1]);
    }
  }

  /** Adding a whole ascending histogram adds bucket by bucket. */
  lemma {:induction false} AddAllMeaning(h: seq<Bucket>, v: seq<Bucket>, at: int)
    requires Ascending(h) && Ascending(v)
    ensures Has(AddAll(h, v), at) <==> Has(h, at) || Has(v, at)
    ensures Lookup(AddAll(h, v), at) == WrapU64(Lookup(h, at) + Lookup(v, at))
    decreases |v|
  {
    hide WrapU64, WrapI64, Add, Ascending, Lookup, Has;
    if |v| == 0 {
      LookupBound(h, at);
      WrapSmall(Lookup(h, at));
      NoBuckets(at);
    } else {
      var t, b := v[..|v| - 1], v[|v| - 1];
      assert t + [b] == v;
      AscendingPrefix(v);
      AddAllMeaning(h, t, at);
      LastLookup(t, b, at);
      AddAllAscends(h, t);
      AddLookup(AddAll(h, t), b, at);
      WrapAdd(Lookup(h, at), b.count);
    }
  }

  lemma NoBuckets(at: int)
    ensures !Has([], at) && Lookup([], at) == 0
  {
  }

  lemma AscendingPrefix(v: seq<Bucket>)
    requires Ascending(v) && v != []
    ensures Ascending(v[..|v| - 1])
  {
  }

  lemma WrapSmall(a: int)
    ensures 0 <= a < 0x1_0000_0000_0000_0000 ==> WrapU64(a) == a
    ensures -0x8000_0000_0000_0000 <= a < 0x8000_0000_0000_0000 ==> WrapI64(a) == a
  {
  }

  lemma {:induction false} LastLookup(t: seq<Bucket>, b: Bucket, at: int)
    requires Ascending(t + [b])
    ensures Has(t + [b], at) <==> Has(t, at) || at == b.at
    ensures Lookup(t + [b], at) == if at == b.at then b.count else Lookup(t, at)
    ensures at == b.at ==> Lookup(t, at) == 0
    decreases |t|
  {
    var s := t + [b];
    if |t| > 0 {
      assert s[0].at < s[|t|].at;
      assert s[1..] == t[1..] + [b];
      LastLookup(t[1..], b, at);
    }
  }

  lemma {:induction false} LookupBound(h: seq<Bucket>, at: int)
    ensures Lookup(h, at) < 0x1_0000_0000_0000_0000
    decreases |h|
  {
    if |h| > 0 {
      LookupBound(h[1..], at);
    }
  }
}
