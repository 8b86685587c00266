/** How an input meets an expected encoding: it holds all of it, or it stops inside it. */
module Wire {
  import opened Bytes

  /** A parsed value and the number of bytes it took. */
  datatype Read<+T> = Read(value: T, used: nat)

  /** The input and the expected bytes are equal as far as both go. */
  ghost predicate Meets(b: seq<Byte>, e: seq<Byte>) {
    forall i :: 0 <= i < |b| && i < |e| ==> b[i] == e[i]
  }

  lemma MeetsSplit(b: seq<Byte>, e1: seq<Byte>, e2: seq<Byte>)
    requires Meets(b, e1 + e2)
    ensures Meets(b, e1)
    ensures |e1| <= |b| ==> b[..|e1|] == e1 && Meets(b[|e1|..], e2)
  {
    forall i | 0 <= i < |b| && i < |e1|
      ensures b[i] == e1[i]
    {
      assert (e1 + e2)[i] == e1[i];
    }
    if |e1| <= |b| {
      forall i | 0 <= i < |b[|e1|..]| && i < |e2|
        ensures b[|e1|..][i] == e2[i]
      {
        assert (e1 + e2)[|e1| + i] == e2[i];
      }
    }
  }

  lemma MeetsSuffixed(e: seq<Byte>, rest: seq<Byte>)
    ensures Meets(e + rest, e)
  {
  }

  lemma MeetsPrefix(e: seq<Byte>, k: nat)
    requires k <= |e|
    ensures Meets(e[..k], e)
  {
  }

  lemma MeetsAll(b: seq<Byte>, e: seq<Byte>)
    requires Meets(b, e) && |e| <= |b|
    ensures b[..|e|] == e
  {
  }

  lemma ReadsU16(b: seq<Byte>, v: U16)
    requires |b| >= 2 && b[..2] == ToLe(v, 2)
    ensures U16At(b, 0) == v
  {
    Widths();
    LeRoundTrip(v, 2);
    assert b[0..2] == b[..2];
  }

  lemma ReadsU32(b: seq<Byte>, v: U32)
    requires |b| >= 4 && b[..4] == ToLe(v, 4)
    ensures U32At(b, 0) == v
  {
    Widths();
    LeRoundTrip(v, 4);
    assert b[0..4] == b[..4];
  }

  lemma ReadsU64(b: seq<Byte>, v: U64)
    requires |b| >= 8 && b[..8] == ToLe(v, 8)
    ensures U64At(b, 0) == v
  {
    Widths();
    LeRoundTrip(v, 8);
    assert b[0..8] == b[..8];
  }

  lemma WritesBack(b: seq<Byte>)
    ensures |b| >= 2 ==> ToLe(U16At(b, 0), 2) == b[..2]
    ensures |b| >= 4 ==> ToLe(U32At(b, 0), 4) == b[..4]
    ensures |b| >= 8 ==> ToLe(U64At(b, 0), 8) == b[..8]
  {
    if |b| >= 2 { LeUnique(b[0..2]); }
    if |b| >= 4 { LeUnique(b[0..4]); }
    if |b| >= 8 { LeUnique(b[0..8]); }
  }

  lemma Glue(b: seq<Byte>, i: nat, j: nat)
    requires i + j <= |b|
    ensures b[..i] + b[i..][..j] == b[..i + j]
    ensures b[i..][j..] == b[i + j..]
  {
  }

  lemma GlueThree(b: seq<Byte>, i: nat, j: nat, k: nat)
    requires i + j + k <= |b|
    ensures b[..i] + (b[i..][..j] + b[i + j..][..k]) == b[..i + j + k]
  {
  }
}
