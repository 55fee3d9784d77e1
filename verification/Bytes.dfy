/** Bytes, optional results, and the little-endian writers and cursor shared by the IR codecs. */
module Bytes {

  type byte = b: int | 0 <= b < 256

  /** A value, or the failure of a C++ encoder (exception or `false`) or a Rust decoder (`Err`). */
  datatype Option<+T> = None | Some(value: T) {
    predicate IsFailure() {
      None?
    }

    function PropagateFailure<U>(): Option<U>
      requires None?
    {
      None
    }

    function Extract(): T
      requires Some?
    {
      value
    }
  }

  const U32_LIMIT := 0x1_0000_0000

  function Pow256(n: nat): (p: nat)
    ensures p >= 1
  {
    if n == 0 then 1 else 256 * Pow256(n - 1)
  }

  /** The `n` low-order bytes of `v`, least significant first. */
  function LittleEndian(v: nat, n: nat): (s: seq<byte>)
    ensures |s| == n
  {
    if n == 0 then [] else [v % 256] + LittleEndian(v / 256, n - 1)
  }

  function FromLittleEndian(s: seq<byte>): nat {
    if s == [] then 0 else s[0] + 256 * FromLittleEndian(s[1..])
  }

  /** Reading back the bytes of a value that fits the field gives the value. */
  lemma {:induction false} LittleEndianRoundTrip(v: nat, n: nat)
    requires v < Pow256(n)
    ensures FromLittleEndian(LittleEndian(v, n)) == v
  {
    if n > 0 {
      var s := LittleEndian(v, n);
      assert s[1..] == LittleEndian(v / 256, n - 1);
      LittleEndianRoundTrip(v / 256, n - 1);
    }
  }

  /** A byte shifted left by `i` bytes. */
  function Shifted(b: byte, i: nat): nat {
    if i == 0 then b else 256 * Shifted(b, i - 1)
  }

  lemma {:induction false} FromLittleEndianAppend(s: seq<byte>, b: byte)
    ensures FromLittleEndian(s + [b]) == FromLittleEndian(s) + Shifted(b, |s|)
  {
    if s == [] {
      assert s + [b] == [b];
      assert [b][1..] == [];
    } else {
      assert (s + [b])[1..] == s[1..] + [b];
      FromLittleEndianAppend(s[1..], b);
    }
  }

  /** Two's-complement image of a signed `8 * n`-bit integer, and its inverse. */
  function Unsigned(v: int, n: nat): (u: nat)
    requires FitsSigned(v, n)
    ensures u < Pow256(n)
  {
    if v < 0 then v + Pow256(n) else v
  }

  function Signed(u: nat, n: nat): int {
    if 2 * u < Pow256(n) then u else u - Pow256(n)
  }

  predicate FitsSigned(v: int, n: nat) {
    0 - Pow256(n) <= 2 * v < Pow256(n)
  }

  /** A signed field of `n` bytes is read back as it was written. */
  lemma SignedRoundTrip(v: int, n: nat)
    requires FitsSigned(v, n)
    ensures Signed(FromLittleEndian(LittleEndian(Unsigned(v, n), n)), n) == v
  {
    var u := Unsigned(v, n);
    LittleEndianRoundTrip(u, n);
  }

  lemma SmallRemainder(v: nat, m: nat)
    requires v < m
    ensures v % m == v
  {
  }

  lemma FieldWidths()
    ensures Pow256(4) == U32_LIMIT
    ensures Pow256(8) == 0x1_0000_0000_0000_0000
    ensures Pow256(16) == 0x1_0000_0000_0000_0000_0000_0000_0000_0000
  {
    assert Pow256(3) == 0x100_0000;
    assert Pow256(6) == 0x1_0000_0000_0000;
    assert Pow256(9) == 0x100_0000_0000_0000_0000;
    assert Pow256(12) == 0x1_0000_0000_0000_0000_0000_0000;
    assert Pow256(15) == 0x100_0000_0000_0000_0000_0000_0000_0000;
  }

  /** The byte loop of the C++ 64-bit writers: byte `i` is `(v >> 8 * i) & 0xFF`. */
  method AppendLittleEndian(out: seq<byte>, v: nat, n: nat) returns (r: seq<byte>)
    ensures r == out + LittleEndian(v, n)
  {
    r := out;
    var rest := v;
    for i := 0 to n
      invariant r + LittleEndian(rest, n - i) == out + LittleEndian(v, n)
    {
      r := r + [rest % 256];
      rest := rest / 256;
    }
  }

  // Readers over the bytes a cursor has left: a value and the remaining bytes, or failure at end of input.

  function ReadU8(s: seq<byte>): (r: Option<(byte, seq<byte>)>)
    ensures r.Some? ==> |r.value.1| < |s|
  {
    if s == [] then None else Some((s[0], s[1..]))
  }

  function ReadBytes(s: seq<byte>, n: nat): (r: Option<(seq<byte>, seq<byte>)>)
    ensures r.Some? ==> |r.value.0| + |r.value.1| == |s| && |r.value.0| == n
  {
    if n > |s| then None else Some((s[..n], s[n..]))
  }

  function ReadUnsigned(s: seq<byte>, n: nat): (r: Option<(nat, seq<byte>)>)
    ensures r.Some? ==> |r.value.1| + n == |s|
  {
    var (raw, rest) :- ReadBytes(s, n);
    Some((FromLittleEndian(raw), rest))
  }

  function ReadLenPrefixed(s: seq<byte>): (r: Option<(seq<byte>, seq<byte>)>)
    ensures r.Some? ==> |r.value.0| + |r.value.1| + 4 == |s|
  {
    var (n, rest) :- ReadUnsigned(s, 4);
    ReadBytes(rest, n)
  }

  /** A payload after its 32-bit length, or failure when the length does not fit. */
  function LenPrefixed(s: seq<byte>): Option<seq<byte>> {
    if |s| < U32_LIMIT then Some(LittleEndian(|s|, 4) + s) else None
  }

  lemma ReadBytesAfterWrite(s: seq<byte>, rest: seq<byte>)
    ensures ReadBytes(s + rest, |s|) == Some((s, rest))
  {
    assert (s + rest)[..|s|] == s;
    assert (s + rest)[|s|..] == rest;
  }

  lemma ReadUnsignedAfterWrite(v: nat, n: nat, rest: seq<byte>)
    requires v < Pow256(n)
    ensures ReadUnsigned(LittleEndian(v, n) + rest, n) == Some((v, rest))
  {
    ReadBytesAfterWrite(LittleEndian(v, n), rest);
    LittleEndianRoundTrip(v, n);
  }

  /** A length-prefixed payload followed by anything is read back with that tail untouched. */
  lemma ReadLenPrefixedAfterWrite(s: seq<byte>, rest: seq<byte>)
    requires LenPrefixed(s).Some?
    ensures ReadLenPrefixed(LenPrefixed(s).value + rest) == Some((s, rest))
  {
    FieldWidths();
    assert LenPrefixed(s).value + rest == LittleEndian(|s|, 4) + (s + rest);
    ReadUnsignedAfterWrite(|s|, 4, s + rest);
    ReadBytesAfterWrite(s, rest);
  }

  /** The Rust byte cursor: an immutable slice and a position that every read advances. */
  class Cursor {
    const bytes: seq<byte>
    var pos: nat

    ghost predicate Valid()
      reads this
    {
      pos <= |bytes|
    }

    ghost function Rest(): seq<byte>
      requires Valid()
      reads this
    {
      bytes[pos..]
    }

    constructor (bytes: seq<byte>)
      ensures Valid() && Rest() == bytes
    {
      this.bytes := bytes;
      this.pos := 0;
    }

    method AtEnd() returns (eof: bool)
      requires Valid()
      ensures eof <==> Rest() == []
    {
      eof := pos == |bytes|;
    }

    method TakeU8() returns (r: Option<byte>)
      requires Valid()
      modifies this
      ensures Valid()
      ensures Advanced(old(Rest()), ReadU8(old(Rest())), r, Rest())
    {
      if pos == |bytes| {
        return None;
      }
      r := Some(bytes[pos]);
      pos := pos + 1;
    }

    method TakeBytes(n: nat) returns (r: Option<seq<byte>>)
      requires Valid()
      modifies this
      ensures Valid()
      ensures Advanced(old(Rest()), ReadBytes(old(Rest()), n), r, Rest())
    {
      var end := pos + n;
      assert end <= |bytes| ==> Rest()[..n] == bytes[pos..end];
      if end > |bytes| {
        return None;
      }
      r := Some(bytes[pos..end]);
      pos := end;
    }

    /** The accumulate-and-shift loop of the multi-byte integer reads. */
    method TakeUnsigned(n: nat) returns (r: Option<nat>)
      requires Valid()
      modifies this
      ensures Valid()
      ensures r.Some? <==> ReadUnsigned(old(Rest()), n).Some?
      ensures r.Some? ==> (r.value, Rest()) == ReadUnsigned(old(Rest()), n).value
    {
      ghost var start := pos;
      var v: nat := 0;
      for i := 0 to n
        invariant start + i == pos <= |bytes|
        invariant v == FromLittleEndian(bytes[start..pos])
      {
        var b := TakeU8();
        if b.None? {
          return None;
        }
        FromLittleEndianAppend(bytes[start..pos - 1], b.value);
        assert bytes[start..pos] == bytes[start..pos - 1] + [b.value];
        v := v + Shifted(b.value, i);
      }
      assert old(Rest())[..n] == bytes[start..pos];
      assert old(Rest())[n..] == Rest();
      r := Some(v);
    }
  }

  /** A read that succeeds returns the specified value and leaves the specified rest;
      one that fails leaves the cursor where it was. */
  ghost predicate Advanced<T(!new)>(before: seq<byte>, spec: Option<(T, seq<byte>)>, got: Option<T>, after: seq<byte>) {
    match spec
    case Some((v, rest)) => got == Some(v) && after == rest
    case None => got.None? && after == before
  }
}
