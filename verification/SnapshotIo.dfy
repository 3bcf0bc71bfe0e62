/** Snapshot streams: fixed-width little-endian scalars, booleans, arrays and length-prefixed vectors. */
module SnapshotIo {
  import opened Words
  import opened GuestMemory

  const MAX_VECTOR := 0x8000_0000

  /** A value read, and what is left of the stream. */
  datatype Parsed<T> = Parsed(value: T, rest: seq<u8>)

  function ReadBytes(n: nat, s: seq<u8>): (r: Option<Parsed<seq<u8>>>)
    ensures r.Some? <==> |s| >= n
    ensures r.Some? ==> |r.value.value| == n && s == r.value.value + r.value.rest
  {
    if |s| < n then None else Some(Parsed(s[..n], s[n..]))
  }

  /** Reading as much as was written first gives just that. */
  lemma ReadsFirst(a: seq<u8>, rest: seq<u8>)
    ensures ReadBytes(|a|, a + rest) == Some(Parsed(a, rest))
  {
    assert (a + rest)[..|a|] == a && (a + rest)[|a|..] == rest;
  }

  function ReadWordOf(n: nat, s: seq<u8>): (r: Option<Parsed<nat>>)
    ensures r.Some? <==> |s| >= n
    ensures r.Some? ==> r.value.value < Pow256(n) && r.value.rest == s[n..]
  {
    match ReadBytes(n, s)
    case None => None
    case Some(p) => FromLeBound(p.value); Some(Parsed(FromLe(p.value), p.rest))
  }

  function BoolByte(b: bool): u8 { if b then 1 else 0 }

  function BoolBytes(bs: seq<bool>): (r: seq<u8>)
    ensures |r| == |bs| && forall i | 0 <= i < |bs| :: r[i] == BoolByte(bs[i])
  {
    if bs == [] then [] else [BoolByte(bs[0])] + BoolBytes(bs[1..])
  }

  function Bools(s: seq<u8>): (r: seq<bool>)
    ensures |r| == |s| && forall i | 0 <= i < |s| :: r[i] == (s[i] != 0)
  {
    if s == [] then [] else [s[0] != 0] + Bools(s[1..])
  }

  /** Booleans written as bytes come back as they were. */
  lemma BoolsRoundTrip(bs: seq<bool>)
    ensures Bools(BoolBytes(bs)) == bs
  {
  }

  /** A vector of elements of w bytes each, given as the bytes of its elements in a row, behind their number. */
  function VectorBytes(v: seq<u8>, w: nat): seq<u8>
    requires w > 0
  {
    ToLe(|v| / w, 8) + v
  }

  /** A vector of more than 2^31 elements is refused, whatever the stream holds. */
  function ReadVector(w: nat, s: seq<u8>): Option<Parsed<seq<u8>>> {
    match ReadWordOf(8, s)
    case None => None
    case Some(p) => if p.value > MAX_VECTOR then None else ReadBytes(p.value * w, p.rest)
  }

  /** Reading a written vector gives it back and stops at its end exactly when it is short enough to be accepted. */
  lemma VectorRoundTripIff(v: seq<u8>, w: nat, rest: seq<u8>)
    requires w > 0 && |v| % w == 0 && |v| / w < TWO64
    ensures |v| / w <= MAX_VECTOR <==> ReadVector(w, VectorBytes(v, w) + rest) == Some(Parsed(v, rest))
    ensures |v| / w > MAX_VECTOR <==> ReadVector(w, VectorBytes(v, w) + rest).None?
  {
    var n := |v| / w;
    assert n * w == |v|;
    WordRoundTrip(n, 8, v + rest) by { assert Pow256(8) == TWO64; }
    assert VectorBytes(v, w) + rest == ToLe(n, 8) + (v + rest);
    if n <= MAX_VECTOR { ReadsFirst(v, rest); }
  }

  /** A vector of booleans takes a byte each. */
  lemma BoolVectorRoundTrip(bs: seq<bool>, rest: seq<u8>)
    requires |bs| <= MAX_VECTOR
    ensures var r := ReadVector(1, VectorBytes(BoolBytes(bs), 1) + rest);
      r.Some? && Bools(r.value.value) == bs && r.value.rest == rest
  {
    VectorRoundTripIff(BoolBytes(bs), 1, rest);
    BoolsRoundTrip(bs);
  }

  /** A scalar is read back, and the stream goes on behind it. */
  lemma WordRoundTrip(v: nat, n: nat, rest: seq<u8>)
    requires v < Pow256(n)
    ensures ReadWordOf(n, ToLe(v, n) + rest) == Some(Parsed(v, rest))
  {
    LeRoundTrip(v, n);
    assert (ToLe(v, n) + rest)[..n] == ToLe(v, n);
    assert (ToLe(v, n) + rest)[n..] == rest;
  }

  // ----- streams -----

  class OutStream {
    var bytes: seq<u8>

    constructor ()
      ensures bytes == []
    {
      bytes := [];
    }

    method WriteScalar(v: nat, n: nat)
      modifies this
      ensures bytes == old(bytes) + ToLe(v, n)
    {
      bytes := bytes + ToLe(v, n);
    }

    method WriteBool(b: bool)
      modifies this
      ensures bytes == old(bytes) + [BoolByte(b)]
    {
      bytes := bytes + [BoolByte(b)];
    }

    method WriteBoolArray(bs: seq<bool>)
      modifies this
      ensures bytes == old(bytes) + BoolBytes(bs)
    {
      var i := 0;
      while i < |bs|
        invariant i <= |bs|
        invariant bytes == old(bytes) + BoolBytes(bs)[..i]
      {
        WriteBool(bs[i]);
        i := i + 1;
      }
    }

    method WriteRaw(data: seq<u8>)
      modifies this
      ensures bytes == old(bytes) + data
    {
      bytes := bytes + data;
    }

    method WriteVector(v: seq<u8>, w: nat)
      requires w > 0
      modifies this
      ensures bytes == old(bytes) + VectorBytes(v, w)
    {
      WriteScalar(|v| / w, 8);
      WriteRaw(v);
    }
  }

  class InStream {
    var left: seq<u8>

    constructor (s: seq<u8>)
      ensures left == s
    {
      left := s;
    }

    method ReadRaw(n: nat) returns (r: Option<seq<u8>>)
      modifies this
      ensures match ReadBytes(n, old(left))
              case None => r.None? && left == old(left)
              case Some(p) => r == Some(p.value) && left == p.rest
    {
      if |left| < n { return None; }
      r := Some(left[..n]);
      left := left[n..];
    }

    method ReadScalar(n: nat) returns (r: Option<nat>)
      modifies this
      ensures match ReadWordOf(n, old(left))
              case None => r.None? && left == old(left)
              case Some(p) => r == Some(p.value) && left == p.rest
    {
      var raw := ReadRaw(n);
      r := if raw.None? then None else Some(FromLe(raw.value));
    }

    method ReadBoolArray(n: nat) returns (r: Option<seq<bool>>)
      modifies this
      ensures r.Some? <==> |old(left)| >= n
      ensures r.Some? ==> r.value == Bools(old(left)[..n]) && left == old(left)[n..]
    {
      var read := [];
      var i := 0;
      while i < n
        invariant i <= n && i <= |old(left)|
        invariant left == old(left)[i..] && read == Bools(old(left)[..i])
      {
        var byte := ReadRaw(1);
        if byte.None? { return None; }
        read := read + [byte.value[0] != 0];
        i := i + 1;
      }
      r := Some(read);
    }

    method ReadVectorOf(w: nat) returns (r: Option<seq<u8>>)
      modifies this
      ensures match ReadVector(w, old(left))
              case None => r.None?
              case Some(p) => r == Some(p.value) && left == p.rest
    {
      var size := ReadScalar(8);
      if size.None? || size.value > MAX_VECTOR { return None; }
      r := ReadRaw(size.value * w);
    }
  }
}
