/** The read-only blob file handle: a read-ahead window that behaves as a plain byte file. */
module BlobFile {
  import opened Bytes

  const BLOB_READ_AHEAD: nat := 1024 * 1024

  /** What a client of a plain byte file can see. */
  datatype Plain = Plain(isOpen: bool, cursor: nat)

  function Min(a: nat, b: nat): nat {
    if a < b then a else b
  }

  /** How much a sequential read of `bytes` returns. */
  function Available(blob: seq<byte>, p: Plain, bytes: nat): nat
    requires p.cursor <= |blob|
  {
    Min(bytes, |blob| - p.cursor)
  }

  function PlainRead(blob: seq<byte>, p: Plain, bytes: nat): (seq<byte>, Plain)
    requires p.cursor <= |blob|
  {
    var count := Available(blob, p, bytes);
    (blob[p.cursor..p.cursor + count], p.(cursor := p.cursor + count))
  }

  lemma SameSlice(part: seq<byte>, whole: seq<byte>, start: nat, from: nat, count: nat)
    requires start + |part| <= |whole| && part == whole[start..start + |part|] && from + count <= |part|
    ensures part[from..from + count] == whole[start + from..start + from + count]
  {
    var a, b := part[from..from + count], whole[start + from..start + from + count];
    forall i | 0 <= i < |a|
      ensures a[i] == b[i]
    {
      assert part[from + i] == whole[start + (from + i)];
    }
  }

  class BlobHandle {
    /** The bytes behind the handle. */
    const blob: seq<byte>
    /** Every backing read succeeds. */
    const reliable: bool
    var isOpen: bool
    var cursor: nat
    var window: seq<byte>
    var windowStart: nat
    var windowSize: nat

    ghost predicate Valid()
      reads this
    {
      && cursor <= |blob|
      && windowSize <= |window|
      && (windowSize > 0 ==>
        windowStart + windowSize <= |blob|
        && window[..windowSize] == blob[windowStart..windowStart + windowSize])
      && (!isOpen ==> windowSize == 0)
    }

    ghost function View(): Plain
      reads this
    {
      Plain(isOpen, cursor)
    }

    /** The window holds the whole range, so no backing read is needed. */
    predicate Covers(offset: nat, count: nat)
      reads this
    {
      windowStart <= offset && offset + count <= windowStart + windowSize
    }

    constructor (blob: seq<byte>, reliable: bool)
      ensures Valid() && View() == Plain(true, 0) && this.blob == blob && this.reliable == reliable
    {
      this.blob, this.reliable := blob, reliable;
      isOpen, cursor, window, windowStart, windowSize := true, 0, [], 0, 0;
    }

    method Close()
      requires Valid()
      modifies this
      ensures Valid() && View() == Plain(false, old(cursor))
    {
      isOpen, window, windowSize := false, [], 0;
    }

    /** A backing read: it may fail, and it only ever asks for bytes inside the blob. */
    method ReadRange(count: nat, offset: nat) returns (data: Option<seq<byte>>)
      requires isOpen && offset + count <= |blob|
      ensures data.Some? ==> data.value == blob[offset..offset + count]
      ensures reliable ==> data.Some?
    {
      var failed: bool := *;
      var read: nat := *;
      if !reliable && (failed || read != count) {
        return None;
      }
      return Some(blob[offset..offset + count]);
    }

    /** Fills a buffer from the window, from a direct read, or through a new window that reads ahead. */
    method ReadExact(hasBuffer: bool, count: nat, offset: nat) returns (data: Option<seq<byte>>)
      requires Valid() && isOpen && offset + count <= |blob|
      modifies this`window, this`windowStart, this`windowSize
      ensures Valid()
      ensures data.Some? ==> data.value == blob[offset..offset + count]
      ensures count == 0 ==> data.Some?
      ensures count > 0 && !hasBuffer ==> data.None?
      ensures reliable && hasBuffer ==> data.Some?
      ensures count > 0 && hasBuffer && old(Covers(offset, count)) ==> data.Some? && windowSize == old(windowSize)
      ensures count > 0 && hasBuffer && !old(Covers(offset, count)) ==>
                if data.Some? && count < BLOB_READ_AHEAD
                then windowStart == offset && windowSize == Min(BLOB_READ_AHEAD, |blob| - offset)
                else windowSize == 0
    {
      if count == 0 {
        return Some([]);
      }
      if !hasBuffer {
        return None;
      }
      if offset >= windowStart && offset - windowStart <= windowSize && count <= windowSize - (offset - windowStart) {
        var from := offset - windowStart;
        SameSlice(window[..windowSize], window, 0, from, count);
        SameSlice(blob[windowStart..windowStart + windowSize], blob, windowStart, from, count);
        return Some(window[from..from + count]);
      }
      if count >= BLOB_READ_AHEAD {
        windowSize := 0;
        data := ReadRange(count, offset);
        return;
      }
      windowSize := 0;
      var length := Min(BLOB_READ_AHEAD, |blob| - offset);
      var filled := ReadRange(length, offset);
      if filled.None? {
        return None;
      }
      window, windowStart, windowSize := filled.value, offset, length;
      assert window[..count] == blob[offset..offset + length][..count];
      return Some(window[..count]);
    }

    /** Sequential read: the blob's next bytes, and the cursor moves only when it succeeds. */
    method Read(hasBuffer: bool, bytes: int) returns (data: Option<seq<byte>>)
      requires Valid()
      modifies this
      ensures Valid()
      ensures !old(isOpen) || bytes < 0 ==> data.None?
      ensures reliable && hasBuffer && old(isOpen) && bytes >= 0 ==> data.Some?
      ensures data.Some? ==> (data.value, View()) == PlainRead(blob, old(View()), bytes)
      ensures data.None? ==> View() == old(View())
    {
      if !isOpen || bytes < 0 {
        return None;
      }
      var count := Min(bytes, |blob| - cursor);
      data := ReadExact(hasBuffer, count, cursor);
      if data.Some? {
        cursor := cursor + count;
      }
    }

    /** Positional read: exactly the requested range, or an error; the cursor never moves. */
    method ReadAt(hasBuffer: bool, bytes: int, location: nat) returns (data: Option<seq<byte>>)
      requires Valid()
      modifies this
      ensures Valid() && View() == old(View())
      ensures !old(isOpen) || bytes < 0 || location + bytes > |blob| ==> data.None?
      ensures reliable && hasBuffer && old(isOpen) && bytes >= 0 && location + bytes <= |blob| ==> data.Some?
      ensures data.Some? ==> data.value == blob[location..location + bytes]
    {
      if !isOpen || bytes < 0 || location > |blob| || bytes > |blob| - location {
        return None;
      }
      data := ReadExact(hasBuffer, bytes, location);
    }

    method Seek(location: nat) returns (ok: bool)
      requires Valid()
      modifies this
      ensures Valid() && (ok <==> old(isOpen) && location <= |blob|)
      ensures View() == if ok then Plain(true, location) else old(View())
    {
      if !isOpen || location > |blob| {
        return false;
      }
      cursor := location;
      if location < windowStart || location - windowStart >= windowSize {
        windowSize := 0;
      }
      ok := true;
    }
  }

  // Any sequence of successful sequential reads yields consecutive bytes.

  function ReadMany(blob: seq<byte>, p: Plain, sizes: seq<nat>): seq<byte>
    requires p.cursor <= |blob|
    decreases |sizes|
  {
    if sizes == [] then []
    else
      var (data, after) := PlainRead(blob, p, sizes[0]);
      data + ReadMany(blob, after, sizes[1..])
  }

  function Total(sizes: seq<nat>): nat {
    if sizes == [] then 0 else sizes[0] + Total(sizes[1..])
  }

  /** Reading in pieces of any sizes gives the same bytes as one read of their total. */
  lemma {:induction false} PiecesMakeTheWhole(blob: seq<byte>, p: Plain, sizes: seq<nat>)
    requires p.cursor <= |blob|
    ensures ReadMany(blob, p, sizes) == PlainRead(blob, p, Total(sizes)).0
    decreases |sizes|
  {
    if sizes != [] {
      var (data, after) := PlainRead(blob, p, sizes[0]);
      PiecesMakeTheWhole(blob, after, sizes[1..]);
      var first, rest := Available(blob, p, sizes[0]), Available(blob, after, Total(sizes[1..]));
      assert first + rest == Available(blob, p, Total(sizes));
      assert blob[p.cursor..p.cursor + first] + blob[p.cursor + first..p.cursor + first + rest]
             == blob[p.cursor..p.cursor + first + rest];
    }
  }
}
