/**
 * The (gns, target id, source sequence) order of merged records, stable sorting by it, and uniqueness of the
 * result.
 */
module RecordOrder {
  import opened Bytes

  datatype Key = Key(gns: U64, target: seq<Byte>, srcSeq: U64)

  datatype Rec = Rec(target: seq<Byte>, gns: U64, srcSeq: U64, payload: seq<Byte>)

  function KeyOf(r: Rec): Key {
    Key(r.gns, r.target, r.srcSeq)
  }

  /** Byte-wise string order. */
  predicate LexLess(a: seq<Byte>, b: seq<Byte>)
    decreases |a|
  {
    if b == [] then false
    else if a == [] then true
    else if a[0] != b[0] then a[0] < b[0]
    else LexLess(a[1..], b[1..])
  }

  predicate KeyLess(a: Key, b: Key) {
    if a.gns != b.gns then a.gns < b.gns
    else if a.target != b.target then LexLess(a.target, b.target)
    else a.srcSeq < b.srcSeq
  }

  predicate Less(a: Rec, b: Rec) {
    KeyLess(KeyOf(a), KeyOf(b))
  }

  lemma {:induction false} LexTotal(a: seq<Byte>, b: seq<Byte>)
    ensures a == b <==> !LexLess(a, b) && !LexLess(b, a)
    ensures !(LexLess(a, b) && LexLess(b, a))
    decreases |a|
  {
    if a != [] && b != [] {
      LexTotal(a[1..], b[1..]);
      assert a == [a[0]] + a[1..] && b == [b[0]] + b[1..];
    }
  }

  lemma {:induction false} LexTrans(a: seq<Byte>, b: seq<Byte>, c: seq<Byte>)
    requires LexLess(a, b) && LexLess(b, c)
    ensures LexLess(a, c)
    decreases |a|
  {
    if a != [] && a[0] == b[0] == c[0] {
      LexTrans(a[1..], b[1..], c[1..]);
    }
  }

  lemma KeyTotal(a: Key, b: Key)
    ensures a == b <==> !KeyLess(a, b) && !KeyLess(b, a)
    ensures !(KeyLess(a, b) && KeyLess(b, a))
  {
    LexTotal(a.target, b.target);
  }

  /** `!KeyLess` is transitive: keys are totally preordered. */
  lemma NotLessTrans(a: Key, b: Key, c: Key)
    requires !KeyLess(b, a) && !KeyLess(c, b)
    ensures !KeyLess(c, a)
  {
    LexTotal(a.target, b.target);
    LexTotal(b.target, c.target);
    LexTotal(a.target, c.target);
    if LexLess(a.target, b.target) && LexLess(b.target, c.target) {
      LexTrans(a.target, b.target, c.target);
    }
  }

  /** Byte strings in dictionary order: one begins the other, or the first byte that differs decides. */
  ghost predicate TextOrder(a: seq<Byte>, b: seq<Byte>) {
    a <= b || exists n :: 0 <= n < |a| && n < |b| && a[..n] == b[..n] && a[n] < b[n]
  }

  /** Earlier time first; at the same time the target that comes first; for the same target the smaller number. */
  ghost predicate InKeyOrder(a: Rec, b: Rec) {
    && a.gns <= b.gns
    && (a.gns == b.gns ==> TextOrder(a.target, b.target))
    && (a.gns == b.gns && a.target == b.target ==> a.srcSeq <= b.srcSeq)
  }

  lemma SameFirst(x: Byte, a: seq<Byte>, b: seq<Byte>)
    ensures TextOrder([x] + a, [x] + b) <==> TextOrder(a, b)
  {
    var s, t := [x] + a, [x] + b;
    assert s[1..] == a && t[1..] == b;
    assert a <= b <==> s <= t;
    if n :| 0 <= n < |a| && n < |b| && a[..n] == b[..n] && a[n] < b[n] {
      assert s[..n + 1] == [x] + a[..n] && t[..n + 1] == [x] + b[..n];
      assert s[n + 1] < t[n + 1];
    }
    if n :| 0 <= n < |s| && n < |t| && s[..n] == t[..n] && s[n] < t[n] {
      assert a[..n - 1] == s[..n][1..] && b[..n - 1] == t[..n][1..];
      assert a[n - 1] < b[n - 1];
    }
  }

  lemma OtherFirst(a: seq<Byte>, b: seq<Byte>)
    requires a != [] && b != [] && a[0] != b[0]
    ensures TextOrder(a, b) <==> a[0] < b[0]
  {
    if a[0] < b[0] {
      assert a[..0] == b[..0];
    }
    if n :| 0 <= n < |a| && n < |b| && a[..n] == b[..n] && a[n] < b[n] {
      assert n > 0 ==> a[..n][0] == b[..n][0];
    }
  }

  /** The recursive string comparison is dictionary order. */
  lemma {:induction false} LexMeaning(a: seq<Byte>, b: seq<Byte>)
    ensures !LexLess(b, a) <==> TextOrder(a, b)
    decreases |a|
  {
    if a != [] && b != [] {
      hide TextOrder;
      if a[0] == b[0] {
        LexMeaning(a[1..], b[1..]);
        SameFirst(a[0], a[1..], b[1..]);
        assert a == [a[0]] + a[1..] && b == [b[0]] + b[1..];
      } else {
        OtherFirst(a, b);
      }
    }
  }

  /** The comparison the code makes, said without it. */
  lemma OrderMeaning(a: Rec, b: Rec)
    ensures !Less(b, a) <==> InKeyOrder(a, b)
  {
    hide LexLess, TextOrder;
    LexMeaning(a.target, b.target);
    LexTotal(a.target, b.target);
    assert a.target == b.target ==> TextOrder(a.target, b.target) by {
      LexMeaning(a.target, a.target);
      LexTotal(a.target, a.target);
    }
  }

  /** All pairs of a list are in key order. */
  ghost predicate Ordered(s: seq<Rec>) {
    forall i, j :: 0 <= i < j < |s| ==> InKeyOrder(s[i], s[j])
  }

  lemma SortedMeaning(s: seq<Rec>)
    ensures Sorted(s) <==> Ordered(s)
  {
    hide Less, InKeyOrder;
    forall i, j | 0 <= i < j < |s|
      ensures !Less(s[j], s[i]) <==> InKeyOrder(s[i], s[j])
    {
      OrderMeaning(s[i], s[j]);
    }
  }

  ghost predicate Sorted(s: seq<Rec>) {
    forall i, j :: 0 <= i < j < |s| ==> !Less(s[j], s[i])
  }

  /** The records of `s` with key `k`, in order. */
  function Of(s: seq<Rec>, k: Key): seq<Rec> {
    if |s| == 0 then [] else (if KeyOf(s[0]) == k then [s[0]] else []) + Of(s[1..], k)
  }

  lemma {:induction false} OfConcat(a: seq<Rec>, b: seq<Rec>, k: Key)
    ensures Of(a + b, k) == Of(a, k) + Of(b, k)
    decreases |a|
  {
    if |a| == 0 {
      assert a + b == b;
    } else {
      OfConcat(a[1..], b, k);
      assert (a + b)[0] == a[0] && (a + b)[1..] == a[1..] + b;
      var h := if KeyOf(a[0]) == k then [a[0]] else [];
      assert h + (Of(a[1..], k) + Of(b, k)) == (h + Of(a[1..], k)) + Of(b, k);
    }
  }

  lemma {:induction false} OfMember(s: seq<Rec>, k: Key)
    ensures forall r :: r in Of(s, k) <==> r in s && KeyOf(r) == k
    ensures Of(s, k) == [] <==> forall r :: r in s ==> KeyOf(r) != k
    decreases |s|
  {
    if |s| > 0 {
      OfMember(s[1..], k);
      assert s == [s[0]] + s[1..];
      forall r
        ensures r in Of(s, k) <==> r in s && KeyOf(r) == k
      {
        assert r in s <==> r == s[0] || r in s[1..];
      }
      if KeyOf(s[0]) == k {
        assert s[0] in s;
      }
    }
  }

  /** Same records for every key, in the same order among equal keys. */
  ghost predicate SameByKey(a: seq<Rec>, b: seq<Rec>) {
    forall k: Key :: Of(a, k) == Of(b, k)
  }

  lemma {:induction false} OfCount(s: seq<Rec>, r: Rec)
    ensures multiset(s)[r] == multiset(Of(s, KeyOf(r)))[r]
    decreases |s|
  {
    if |s| > 0 {
      OfCount(s[1..], r);
      assert s == [s[0]] + s[1..];
      assert multiset(s)[r] == multiset([s[0]])[r] + multiset(s[1..])[r];
    }
  }

  lemma SameByKeyPermutes(a: seq<Rec>, b: seq<Rec>)
    requires SameByKey(a, b)
    ensures multiset(a) == multiset(b)
  {
    forall r: Rec
      ensures multiset(a)[r] == multiset(b)[r]
    {
      OfCount(a, r);
      OfCount(b, r);
    }
  }

  lemma HeadsAgree(a: seq<Rec>, b: seq<Rec>)
    requires Sorted(a) && Sorted(b) && SameByKey(a, b) && a != []
    ensures b != [] && a[0] == b[0]
  {
    var k := KeyOf(a[0]);
    OfMember(a, k);
    OfMember(b, k);
    assert a[0] in a;
    assert Of(b, k) != [];
    assert b != [];
    var kb := KeyOf(b[0]);
    OfMember(a, kb);
    OfMember(b, kb);
    assert b[0] in b;
    var i :| 0 <= i < |a| && KeyOf(a[i]) == kb;
    var j :| 0 <= j < |b| && KeyOf(b[j]) == k;
    assert !KeyLess(kb, k) by { if i > 0 { assert !Less(a[i], a[0]); } else { KeyTotal(k, k); } }
    assert !KeyLess(k, kb) by { if j > 0 { assert !Less(b[j], b[0]); } else { KeyTotal(k, k); } }
    KeyTotal(k, kb);
    assert Of(a, k)[0] == a[0] && Of(b, k)[0] == b[0];
  }

  /** A stable sort is determined by what it sorts. */
  lemma {:induction false} StableSortUnique(a: seq<Rec>, b: seq<Rec>)
    requires Sorted(a) && Sorted(b) && SameByKey(a, b)
    ensures a == b
    decreases |a|
  {
    if a == [] {
      if b != [] {
        HeadsAgree(b, a);
      }
    } else {
      HeadsAgree(a, b);
      forall k: Key
        ensures Of(a[1..], k) == Of(b[1..], k)
      {
        var h := if KeyOf(a[0]) == k then [a[0]] else [];
        assert Of(a, k) == Of(b, k);
        assert h + Of(a[1..], k) == h + Of(b[1..], k);
        assert Of(a[1..], k) == (h + Of(a[1..], k))[|h|..];
        assert Of(b[1..], k) == (h + Of(b[1..], k))[|h|..];
      }
      StableSortUnique(a[1..], b[1..]);
      assert a == [a[0]] + a[1..] && b == [b[0]] + b[1..];
    }
  }

  // ---------------------------------------------------------------- the sort itself

  function Insert(s: seq<Rec>, x: Rec): (r: seq<Rec>)
    ensures |r| == |s| + 1
  {
    if |s| == 0 then [x]
    else if Less(x, s[0]) then [x] + s
    else [s[0]] + Insert(s[1..], x)
  }

  /** Stable sorting by key, as `sort_by` promises it. */
  function StableSort(s: seq<Rec>): (r: seq<Rec>)
    decreases |s|
  {
    if |s| == 0 then [] else Insert(StableSort(s[..|s| - 1]), s[|s| - 1])
  }

  lemma {:induction false} InsertSorts(s: seq<Rec>, x: Rec)
    requires Sorted(s)
    ensures Sorted(Insert(s, x))
    ensures forall r :: r in Insert(s, x) ==> r == x || r in s
    decreases |s|
  {
    if |s| > 0 {
      var t := Insert(s, x);
      if Less(x, s[0]) {
        forall i, j | 0 <= i < j < |t|
          ensures !Less(t[j], t[i])
        {
          KeyTotal(KeyOf(x), KeyOf(s[0]));
          if i == 0 {
            if j > 1 { NotLessTrans(KeyOf(x), KeyOf(s[0]), KeyOf(s[j - 1])); }
          }
        }
      } else {
        InsertSorts(s[1..], x);
        var u := Insert(s[1..], x);
        forall i, j | 0 <= i < j < |t|
          ensures !Less(t[j], t[i])
        {
          if i == 0 {
            assert t[j] in u;
          }
        }
      }
    }
  }

  lemma {:induction false} InsertByKey(s: seq<Rec>, x: Rec, k: Key)
    requires Sorted(s)
    ensures Of(Insert(s, x), k) == Of(s, k) + Of([x], k)
    decreases |s|
  {
    if |s| == 0 {
    } else if Less(x, s[0]) {
      OfConcat([x], s, k);
      assert [x] + s == Insert(s, x);
      if KeyOf(x) == k {
        forall r | r in s
          ensures KeyOf(r) != k
        {
          var i :| 0 <= i < |s| && s[i] == r;
          KeyTotal(k, KeyOf(r));
          KeyTotal(k, KeyOf(s[0]));
          if i > 0 { NotLessTrans(KeyOf(s[0]), KeyOf(r), KeyOf(r)); }
        }
        OfMember(s, k);
      }
    } else {
      InsertByKey(s[1..], x, k);
      assert Insert(s, x)[1..] == Insert(s[1..], x);
    }
  }

  lemma {:induction false} StableSortIsStable(s: seq<Rec>)
    ensures Sorted(StableSort(s)) && SameByKey(StableSort(s), s)
    decreases |s|
  {
    if |s| > 0 {
      var t, x := s[..|s| - 1], s[|s| - 1];
      StableSortIsStable(t);
      InsertSorts(StableSort(t), x);
      forall k: Key
        ensures Of(StableSort(s), k) == Of(s, k)
      {
        InsertByKey(StableSort(t), x, k);
        OfConcat(t, [x], k);
        assert t + [x] == s;
      }
    }
  }
}
