/** The disk behind disk_t: bytes that pread and pwrite (src/core/common.h:560-590) move.  What the
    device does beyond that, and when it fails, is left open. */
module Disks {

  type byte = x: int | 0 <= x < 256

  function NulBytes(n: nat): (z: seq<byte>)
    ensures |z| == n && forall i :: 0 <= i < n ==> z[i] == 0
  {
    seq(n, _ => 0)
  }

  /** `data` written over `content` at `offset`. */
  function Patched(content: seq<byte>, offset: nat, data: seq<byte>): (r: seq<byte>)
    requires offset + |data| <= |content|
    ensures |r| == |content|
  {
    content[..offset] + data + content[offset + |data|..]
  }

  /** None of the n bytes at `offset` is lost. */
  predicate Undamaged(lost: set<nat>, offset: nat, n: nat) {
    forall i :: offset <= i < offset + n ==> i !in lost
  }

  class Disk {
    var content: seq<byte>
    const sectorSize: nat
    /** In-range reads and writes are served in full. */
    const reliable: bool
    /** A sector-aligned read that stops early stops on a sector boundary. */
    const sectorwise: bool
    /** A sector that can be read is delivered when it is asked for alone. */
    const singles: bool
    /** Bytes that no read delivers, on a disk that is not reliable. */
    const damaged: set<nat>

    constructor (bytes: seq<byte>, sectorSize: nat, reliable: bool, sectorwise: bool, singles: bool, damaged: set<nat>)
      ensures content == bytes && this.sectorSize == sectorSize
      ensures this.reliable == reliable && this.sectorwise == sectorwise
      ensures this.singles == singles && this.damaged == damaged
    {
      content := bytes;
      this.sectorSize := sectorSize;
      this.reliable := reliable;
      this.sectorwise := sectorwise;
      this.singles := singles;
      this.damaged := damaged;
    }

    function Lost(): set<nat> {
      if reliable then {} else damaged
    }

    /** A whole sector at `offset`, with nothing lost in it. */
    ghost predicate GoodSector(offset: nat)
      reads this
    {
      sectorSize > 0 && offset % sectorSize == 0 && InRange(sectorSize, offset) && Undamaged(Lost(), offset, sectorSize)
    }

    ghost predicate InRange(count: nat, offset: nat)
      reads this
    {
      offset + count <= |content|
    }

    /** `status` bytes of `data` come from the disk; the rest of the buffer is arbitrary. */
    method Pread(count: nat, offset: nat) returns (status: int, data: seq<byte>)
      ensures |data| == count && status <= count
      ensures status > 0 ==> InRange(status, offset) && data[..status] == content[offset..offset + status]
      ensures status > 0 ==> Undamaged(Lost(), offset, status)
      ensures reliable && InRange(count, offset) ==> status == count
      ensures singles && count == sectorSize && GoodSector(offset) ==> status == count
      ensures sectorwise && sectorSize > 0 && offset % sectorSize == 0 && count % sectorSize == 0 && status > 0
              ==> status % sectorSize == 0
    {
      var single := singles && sectorSize > 0 && offset % sectorSize == 0 && count == sectorSize;
      if offset + count <= |content| && (reliable || (single && Undamaged(Lost(), offset, count))) {
        status, data := count, content[offset..offset + count];
      } else {
        status :| status <= count && (status > 0 ==> offset + status <= |content| && Undamaged(Lost(), offset, status))
                  && (sectorwise && sectorSize > 0 && status > 0 ==> status % sectorSize == 0);
        var good: seq<byte> := if status > 0 then content[offset..offset + status] else [];
        var blank: seq<byte> := seq(count - |good|, _ => 0);
        assert |blank| == count - |good|;
        var rest: seq<byte> :| |rest| == count - |good|;
        data := good + rest;
      }
    }

    /** A write changes nothing outside its range; a failing one may change only part of it. */
    method Pwrite(data: seq<byte>, offset: nat) returns (status: int)
      modifies this`content
      ensures |content| == |old(content)| && status <= |data|
      ensures forall i :: 0 <= i < |content| && !(offset <= i < offset + |data|) ==> content[i] == old(content)[i]
      ensures reliable && offset + |data| <= |old(content)| ==>
                status == |data| && content == Patched(old(content), offset, data)
    {
      if reliable && offset + |data| <= |content| {
        content := Patched(content, offset, data);
        status := |data|;
      } else {
        status := -1;
        if offset <= |content| {
          var done: nat :| done <= |data| && offset + done <= |content|;
          content := Patched(content, offset, data[..done]);
        }
      }
    }
  }
}
