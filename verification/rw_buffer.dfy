/**
 The read-write buffer integers are encoded into before they are hashed: bytes are appended at a
 write cursor, read from a read cursor, and moved to the front.
 Source: src/common/rwbuffer.c, src/common/rwbuffer.h, src/common/gve.c.
 */
module RwBuffers {
  import opened Bytes
  import opened Gve

  class RwBuffer {
    const data: array<byte>
    var readAt: nat
    var writeAt: nat

    ghost predicate Valid()
      reads this
    {
      readAt <= writeAt <= data.Length
    }

    /** The bytes written and not yet read. */
    ghost function Contents(): bytes
      requires Valid()
      reads this, data
    {
      data[readAt..writeAt]
    }

    /** RW_BUFFER_NEW_LOCAL_EMPTY */
    constructor (size: nat)
      ensures Valid() && fresh(data) && data.Length == size && readAt == 0 && Contents() == []
    {
      data := new byte[size];
      readAt, writeAt := 0, 0;
    }

    /** rw_buffer_empty */
    method Empty()
      modifies this
      ensures Valid() && readAt == 0 && Contents() == []
    {
      readAt, writeAt := 0, 0;
    }

    /** rw_buffer_seek_write_set; it may put the write cursor before the read cursor, and then the data length wraps. */
    method SeekWriteSet(offset: nat) returns (ok: bool)
      requires Valid()
      modifies this`writeAt
      ensures ok <==> offset <= data.Length
      ensures !ok ==> writeAt == old(writeAt)
      ensures ok ==> writeAt == offset && (Valid() <==> offset >= readAt)
    {
      if offset > data.Length {
        return false;
      }
      writeAt := offset;
      return true;
    }

    /** rw_buffer_seek_write_cur */
    method SeekWriteCur(offset: nat) returns (ok: bool)
      requires Valid()
      modifies this`writeAt
      ensures Valid() && (ok <==> old(writeAt) + offset <= data.Length)
      ensures writeAt == old(writeAt) + (if ok then offset else 0)
    {
      if writeAt + offset > data.Length {
        return false;
      }
      writeAt := writeAt + offset;
      return true;
    }

    /** rw_buffer_seek_write_end, with the same gap */
    method SeekWriteEnd(offset: nat) returns (ok: bool)
      requires Valid()
      modifies this`writeAt
      ensures ok <==> offset <= data.Length
      ensures !ok ==> writeAt == old(writeAt)
      ensures ok ==> writeAt + offset == data.Length && (Valid() <==> readAt + offset <= data.Length)
    {
      if offset > data.Length {
        return false;
      }
      writeAt := data.Length - offset;
      return true;
    }

    /** rw_buffer_write_bytes: all bytes or none. */
    method WriteBytes(from: bytes) returns (ok: bool)
      requires Valid()
      modifies this`writeAt, data
      ensures Valid() && (ok <==> old(writeAt) + |from| <= data.Length)
      ensures Contents() == old(Contents()) + (if ok then from else [])
    {
      if writeAt + |from| > data.Length {
        return false;
      }
      for i := 0 to |from|
        invariant writeAt == old(writeAt)
        invariant data[..writeAt] == old(data[..writeAt])
        invariant data[writeAt..writeAt + i] == from[..i]
      {
        data[writeAt + i] := from[i];
      }
      assert data[readAt..writeAt] == data[..writeAt][readAt..];
      ok := SeekWriteCur(|from|);
    }

    /** rw_buffer_write_u8, _u16, _u32 and _u64, big-endian */
    method WriteBE(value: nat, width: nat) returns (ok: bool)
      requires Valid()
      modifies this`writeAt, data
      ensures Valid() && (ok <==> old(writeAt) + width <= data.Length)
      ensures Contents() == old(Contents()) + (if ok then ToBE(value, width) else [])
      ensures ok && value < Pow(256, width) ==> FromBE(Contents()[|old(Contents())|..]) == value
    {
      ok := WriteBytes(ToBE(value, width));
      if ok && value < Pow(256, width) {
        FromBEToBE(value, width);
        assert Contents()[|old(Contents())|..] == ToBE(value, width);
      }
    }

    /** gve_put_u64 */
    method PutVlq(value: u64) returns (ok: bool)
      requires Valid()
      modifies this`writeAt, data
      ensures Valid() && (ok <==> old(writeAt) + |Vlq(value)| <= data.Length)
      ensures Contents() == old(Contents()) + (if ok then Vlq(value) else [])
    {
      var out, n := PutU64(value);
      ok := WriteBytes(out[..n]);
    }

    /** rw_buffer_shift_data: what is unread moves to the front, in place. */
    method ShiftData()
      requires Valid()
      modifies this, data
      ensures Valid() && readAt == 0 && Contents() == old(Contents())
    {
      if readAt == 0 {
        return;
      }
      var n := writeAt - readAt;
      for i := 0 to n
        invariant readAt == old(readAt)
        invariant forall k :: 0 <= k < i ==> data[k] == old(data[readAt + k])
        invariant forall k :: i <= k < data.Length ==> data[k] == old(data[k])
      {
        data[i] := data[readAt + i];
      }
      readAt, writeAt := 0, n;
      assert forall k :: 0 <= k < n ==> data[..][k] == old(data[..])[old(readAt) + k];
    }
  }

  /** hash_u16 and its kin: a fresh local buffer of four bytes takes every u16, one of ten every u64. */
  method EncodeLocal(value: u64, size: nat) returns (ok: bool, encoded: bytes)
    ensures size >= 10 || (size >= 4 && value < 0x1_0000) ==> ok
    ensures ok ==> encoded == Vlq(value)
  {
    var buffer := new RwBuffer(size);
    ok := buffer.PutVlq(value);
    encoded := buffer.data[buffer.readAt..buffer.writeAt];
    BuffersSuffice(value);
  }
}
