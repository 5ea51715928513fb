/** src/disk/hdcache.c: the read cache put in front of a disk. */
module HdCache {
  import opened Arith
  import opened Disks
  import opened Wrappers

  const CACHE_BUFFER_NBR: nat := 16
  const CACHE_DEFAULT_SIZE: nat := 64 * 512

  /** struct cache_buffer_struct; `buffer` is None where the C pointer is NULL. */
  datatype Slot = Slot(buffer: Option<seq<byte>>, bufferSize: nat, cacheSize: nat, cacheOffset: nat, cacheStatus: int)

  datatype Readahead = ReadaheadNone | Readahead8K | Readahead32K

  /** x - 1 in 64-bit unsigned arithmetic. */
  function Minus1(x: nat): nat {
    if x == 0 then MAX_UINT64 else x - 1
  }

  predicate Holds(s: Slot, offset: nat) {
    s.cacheOffset <= offset < s.cacheOffset + s.cacheSize && s.buffer.Some?
  }

  /** The bytes a live slot vouches for are those of the disk. */
  ghost predicate SlotMatches(s: Slot, content: seq<byte>) {
    && (s.buffer.Some? ==> |s.buffer.value| == s.bufferSize)
    && (s.buffer.Some? && s.cacheSize > 0 ==>
         && s.cacheSize <= s.bufferSize && s.cacheStatus <= s.cacheSize
         && (s.cacheStatus > 0 ==>
              && s.cacheOffset + s.cacheStatus <= |content|
              && s.buffer.value[..s.cacheStatus] == content[s.cacheOffset..s.cacheOffset + s.cacheStatus]))
  }

  ghost predicate SlotFull(s: Slot) {
    s.buffer.Some? && s.cacheSize > 0 ==> s.cacheStatus == s.cacheSize
  }

  /** A slot vouches for no byte that cannot be read. */
  predicate SlotSound(s: Slot, lost: set<nat>) {
    s.buffer.Some? && s.cacheSize > 0 && s.cacheStatus > 0 ==> Undamaged(lost, s.cacheOffset, s.cacheStatus)
  }

  ghost predicate SlotAligned(s: Slot, ss: nat) {
    ss > 0 && (s.buffer.Some? && s.cacheSize > 0 ==>
      s.cacheOffset % ss == 0 && s.cacheSize % ss == 0 && (s.cacheStatus > 0 ==> s.cacheStatus % ss == 0))
  }

  class DiskCache {
    const disk: Disk
    const cache: array<Slot>
    var cacheBufferNbr: nat
    const cacheSizeMin: nat
    var lastIoErrorNbr: nat
    const diskRealSize: nat
    var writeUsed: bool

    ghost predicate Valid()
      reads this, cache, disk
    {
      && cache.Length == CACHE_BUFFER_NBR && cacheBufferNbr < CACHE_BUFFER_NBR
      && diskRealSize <= |disk.content|
      && (forall i :: 0 <= i < cache.Length ==> SlotMatches(cache[i], disk.content))
      && forall i :: 0 <= i < cache.Length ==> SlotSound(cache[i], disk.Lost())
    }

    /** Every live slot holds all the bytes it claims: the state of a cache on a disk that never failed. */
    ghost predicate Full()
      reads this, cache, disk
    {
      Valid() && disk.reliable && forall i :: 0 <= i < cache.Length ==> SlotFull(cache[i])
    }

    /** All requests so far were sector-aligned, on a disk whose reads stop on sector boundaries. */
    ghost predicate Aligned()
      reads this, cache, disk
    {
      && Valid() && disk.sectorwise && disk.sectorSize > 0 && cacheSizeMin % disk.sectorSize == 0
      && forall i :: 0 <= i < cache.Length ==> SlotAligned(cache[i], disk.sectorSize)
    }

    /** new_diskcache */
    constructor (disk: Disk, mode: Readahead, diskRealSize: nat)
      requires diskRealSize <= |disk.content|
      ensures Valid() && this.disk == disk && fresh(cache) && !writeUsed
      ensures NoShort() && lastIoErrorNbr == 0 && (disk.reliable ==> Full())
      ensures disk.sectorwise && disk.sectorSize > 0 && 8192 % disk.sectorSize == 0 ==> Aligned()
    {
      this.disk := disk;
      cache := new Slot[CACHE_BUFFER_NBR](_ => Slot(None, 0, 0, 0, 0));
      cacheBufferNbr, lastIoErrorNbr := 0, 0;
      cacheSizeMin := match mode
        case Readahead8K => 16 * 512
        case Readahead32K => 64 * 512
        case ReadaheadNone => 0;
      this.diskRealSize := diskRealSize;
      writeUsed := false;
      new;
      if disk.sectorwise && disk.sectorSize > 0 && 8192 % disk.sectorSize == 0 {
        ModMul(8192, 4, disk.sectorSize);
      }
    }

    /** The slot that serves `offset`, looking at the most recently filled ones first. */
    method FindSlot(offset: nat) returns (found: Option<nat>)
      requires Valid()
      ensures found.Some? ==> found.value < CACHE_BUFFER_NBR && Holds(cache[found.value], offset)
      ensures found.None? ==> forall i :: 0 <= i < CACHE_BUFFER_NBR ==> !Holds(cache[i], offset)
    {
      hide Seen, Holds, SlotMatches;
      var nbr := cacheBufferNbr;
      SeenFirst(nbr);
      for i := 0 to CACHE_BUFFER_NBR
        invariant nbr < CACHE_BUFFER_NBR && (i < CACHE_BUFFER_NBR ==> nbr == Seen(cacheBufferNbr, i))
        invariant forall j {:trigger Seen(cacheBufferNbr, j)} :: 0 <= j < i ==>
                    !Holds(cache[Seen(cacheBufferNbr, j)], offset)
      {
        if Holds(cache[nbr], offset) {
          return Some(nbr);
        }
        SeenNext(cacheBufferNbr, i);
        nbr := (nbr + CACHE_BUFFER_NBR - 1) % CACHE_BUFFER_NBR;
      }
      forall k | 0 <= k < CACHE_BUFFER_NBR
        ensures !Holds(cache[k], offset)
      {
        var j := SeenAt(cacheBufferNbr, k);
      }
      return None;
    }

    /** dst[at..at+count] holds exactly the disk bytes at `offset`. */
    ghost predicate Delivered(dst: array<byte>, at: nat, count: nat, offset: nat)
      reads dst, disk
    {
      Same(dst[..], at, count, disk.content, offset)
    }

    /** The cache is full and the request inside the disk. */
    ghost predicate Served(count: nat, offset: nat)
      reads this, cache, disk
    {
      Full() && disk.InRange(count, offset)
    }

    /** The cache and the request are sector-aligned. */
    ghost predicate Sectors(count: nat, offset: nat)
      reads this, cache, disk
    {
      Aligned() && offset % disk.sectorSize == 0 && count % disk.sectorSize == 0
    }

    /** No live slot holds less than it claims, but perhaps one. */
    ghost predicate NoShortBut(nbr: int)
      reads this, cache, disk
    {
      Valid() && forall i :: 0 <= i < cache.Length && i != nbr ==> SlotFull(cache[i])
    }

    ghost predicate NoShort()
      reads this, cache, disk
    {
      NoShortBut(-1)
    }

    /** A request of whole sectors inside a disk that delivers good sectors one by one: the first `limit` bytes are
        good, and if there are more, the sector after them is not. */
    ghost predicate GoodUpTo(count: nat, offset: nat, limit: nat)
      reads disk
    {
      && disk.singles && disk.sectorSize > 0 && count > 0 && disk.InRange(count, offset)
      && offset % disk.sectorSize == 0 && count % disk.sectorSize == 0
      && limit <= count && limit % disk.sectorSize == 0 && Undamaged(disk.Lost(), offset, limit)
      && (limit < count ==> !Undamaged(disk.Lost(), offset + limit, disk.sectorSize))
    }

    /** What is left of a request after a hit on a full slot. */
    lemma GoodAfterHit(s: Slot, count: nat, offset: nat, limit: nat) returns (short: nat)
      requires GoodUpTo(count, offset, limit) && SlotSound(s, disk.Lost())
      requires SlotFull(s) && SlotAligned(s, disk.sectorSize)
      requires Holds(s, offset)
      ensures var available := s.cacheSize + s.cacheOffset - offset;
              && s.cacheStatus == s.cacheSize
              && (if count <= available then limit == count
                  else available + short == limit && GoodUpTo(count - available, offset + available, short))
    {
      hide SlotSound, SlotFull, SlotAligned, Undamaged;
      SoundHit(s, disk.Lost(), disk.sectorSize, offset, count, limit);
      var available := s.cacheSize + s.cacheOffset - offset;
      short := if count <= available then 0 else limit - available;
      if count > available {
        AlignedHit(s, disk.sectorSize, offset, count);
      }
    }

    /** What a read at `offset` can have delivered. */
    lemma GoodAfterRead(s: Slot, countNew: nat, count: nat, offset: nat, limit: nat)
      requires GoodUpTo(count, offset, limit) && SlotSound(s, disk.Lost()) && SlotAligned(s, disk.sectorSize)
      requires s.buffer.Some? && s.cacheOffset == offset && s.cacheSize == countNew && count <= countNew
      requires disk.singles && countNew == disk.sectorSize && disk.GoodSector(offset) ==> s.cacheStatus == countNew
      ensures limit < count ==> s.cacheStatus <= limit
      ensures countNew <= disk.sectorSize && s.cacheStatus < count ==> limit < count
    {
      hide SlotSound, SlotAligned;
      SoundRead(s, disk.Lost(), disk.sectorSize, offset, count, limit);
      if countNew <= disk.sectorSize {
        MultiplesApart(0, count, disk.sectorSize);
      }
    }

    /** One sector of a request. */
    lemma GoodOne(count: nat, offset: nat, limit: nat, off: nat)
      requires GoodUpTo(count, offset, limit) && off % disk.sectorSize == 0 && off <= limit && off < count
      ensures off + disk.sectorSize <= count
      ensures GoodUpTo(disk.sectorSize, offset + off, if off < limit then disk.sectorSize else 0)
      ensures off < limit ==> off + disk.sectorSize <= limit
    {
      hide Undamaged;
      var good := SectorAt(disk.Lost(), disk.sectorSize, count, offset, limit, off);
      ModAdd(offset, off, disk.sectorSize);
      ModOfMultiple(1, disk.sectorSize);
    }

    /** Refill the next slot of the ring; the filled slot is cache[cacheBufferNbr]. */
    method Refill(countNew: nat, offset: nat)
      requires Valid()
      modifies this`cacheBufferNbr, cache
      ensures Valid()
      ensures var s := cache[cacheBufferNbr];
              s.buffer.Some? && s.cacheSize == countNew && s.cacheOffset == offset && countNew <= s.bufferSize
              && s.cacheStatus <= countNew
      ensures old(Full()) && disk.InRange(countNew, offset) ==> Full() && cache[cacheBufferNbr].cacheStatus == countNew
      ensures old(Aligned()) && offset % disk.sectorSize == 0 && countNew % disk.sectorSize == 0 ==> Aligned()
      ensures old(NoShort()) ==> NoShortBut(cacheBufferNbr)
      ensures forall i :: 0 <= i < cache.Length && i != cacheBufferNbr ==> cache[i] == old(cache[i])
      ensures disk.singles && countNew == disk.sectorSize && disk.GoodSector(offset) ==>
                cache[cacheBufferNbr].cacheStatus == countNew
    {
      hide SlotMatches, SlotFull, SlotAligned, SlotSound;
      cacheBufferNbr := (cacheBufferNbr + 1) % CACHE_BUFFER_NBR;
      var s := FilledSlot(cache[cacheBufferNbr], countNew, offset);
      cache[cacheBufferNbr] := s;
    }

    /** The slot's buffer, allocated anew if it is too small, filled from the disk. */
    method FilledSlot(was: Slot, countNew: nat, offset: nat) returns (s: Slot)
      requires SlotMatches(was, disk.content)
      ensures SlotMatches(s, disk.content) && SlotSound(s, disk.Lost())
      ensures s.buffer.Some? && s.cacheSize == countNew && s.cacheOffset == offset && countNew <= s.bufferSize
              && s.cacheStatus <= countNew
      ensures disk.reliable && disk.InRange(countNew, offset) ==> SlotFull(s) && s.cacheStatus == countNew
      ensures disk.sectorwise && disk.sectorSize > 0 && offset % disk.sectorSize == 0 && countNew % disk.sectorSize == 0
              ==> SlotAligned(s, disk.sectorSize)
      ensures disk.singles && countNew == disk.sectorSize && disk.GoodSector(offset) ==> s.cacheStatus == countNew
    {
      s := was;
      if s.bufferSize < countNew {
        s := s.(buffer := None);
      }
      if s.buffer.None? {
        var size := if countNew < CACHE_DEFAULT_SIZE then CACHE_DEFAULT_SIZE else countNew;
        s := s.(bufferSize := size, buffer := Some(seq(size, _ => 0)));
      }
      var status, data := disk.Pread(countNew, offset);
      s := s.(cacheSize := countNew, cacheOffset := offset, cacheStatus := status,
              buffer := Some(data + s.buffer.value[countNew..]));
      assert status > 0 ==> s.buffer.value[..status] == data[..status];
    }

    /** cache_pread_aux: reads into dst[at..at+count] and returns how many bytes are good.  `full`, `sectors` and
        `exact` only say which guarantees the caller is after; exactly, the bytes before the first bad sector are
        delivered, and nothing beyond them is vouched for. */
    method PreadAux(dst: array<byte>, at: nat, count: nat, offset: nat, readAhead: bool, ghost full: bool,
                    ghost sectors: bool, ghost exact: bool, ghost limit: nat)
      returns (res: int)
      requires Valid() && at + count <= dst.Length
      requires (full ==> Served(count, offset)) && (sectors ==> Sectors(count, offset))
      requires exact ==> sectors && GoodUpTo(count, offset, limit) && NoShort()
      requires exact ==> lastIoErrorNbr == 0 || (count == disk.sectorSize && !readAhead)
      modifies this`cacheBufferNbr, this`lastIoErrorNbr, cache, dst
      ensures Valid() && res <= count
      ensures dst[..at] == old(dst[..at]) && dst[at + count..] == old(dst[at + count..])
      ensures full ==> Served(count, offset) && res == count && Delivered(dst, at, count, offset)
      ensures sectors ==> Sectors(count, offset) && (res == count ==> Delivered(dst, at, count, offset))
                          && (res > 0 && count == disk.sectorSize ==> res == count)
      ensures exact && limit == count ==> res == count
      ensures exact && limit < count ==> res <= limit
      ensures exact && limit < count && disk.sectorSize < count && old(NotHeld(offset)) ==>
                res == limit && Delivered(dst, at, limit, offset)
      ensures exact && limit == count == disk.sectorSize && !readAhead ==> NoShort()
      ensures exact && limit == count && (old(lastIoErrorNbr) == 0 || old(NotHeld(offset))) ==> lastIoErrorNbr == 0
      decreases readAhead, count, 3
    {
      var found := FindSlot(offset);
      if found.Some? {
        res := ServeHit(found.value, dst, at, count, offset, readAhead, full, sectors, exact, limit);
      } else {
        res := ServeMiss(dst, at, count, offset, readAhead, full, sectors, exact, limit);
      }
    }

    /** No live slot covers `offset`. */
    ghost predicate NotHeld(offset: nat)
      reads this, cache
    {
      forall i :: 0 <= i < cache.Length ==> !Holds(cache[i], offset)
    }

    /** Two writes next to each other leave what is outside both alone. */
    static lemma OutsideKept(a: seq<byte>, b: seq<byte>, c: seq<byte>, at: nat, first: nat, count: nat)
      requires |a| == |b| == |c| && first <= count && at + count <= |a|
      requires b[..at] == a[..at] && b[at + first..] == a[at + first..]
      requires c[..at + first] == b[..at + first] && c[at + count..] == b[at + count..]
      ensures c[..at] == a[..at] && c[at + count..] == a[at + count..]
    {
      assert c[..at] == c[..at + first][..at] && b[..at] == b[..at + first][..at];
      assert b[at + count..] == b[at + first..][count - first..] && a[at + count..] == a[at + first..][count - first..];
    }

    method ServeHit(nbr: nat, dst: array<byte>, at: nat, count: nat, offset: nat, readAhead: bool,
                    ghost full: bool, ghost sectors: bool, ghost exact: bool, ghost limit: nat)
      returns (res: int)
      requires Valid() && at + count <= dst.Length && nbr < CACHE_BUFFER_NBR && Holds(cache[nbr], offset)
      requires (full ==> Served(count, offset)) && (sectors ==> Sectors(count, offset))
      requires exact ==> sectors && GoodUpTo(count, offset, limit) && NoShort()
      requires exact ==> lastIoErrorNbr == 0 || (count == disk.sectorSize && !readAhead)
      modifies this`cacheBufferNbr, this`lastIoErrorNbr, cache, dst
      ensures Valid() && res <= count
      ensures dst[..at] == old(dst[..at]) && dst[at + count..] == old(dst[at + count..])
      ensures full ==> Served(count, offset) && res == count && Delivered(dst, at, count, offset)
      ensures sectors ==> Sectors(count, offset) && (res == count ==> Delivered(dst, at, count, offset))
                          && (res > 0 && count == disk.sectorSize ==> res == count)
      ensures exact && limit == count ==> res == count
      ensures exact && limit < count ==> res <= limit
      ensures exact && limit == count == disk.sectorSize && !readAhead ==> NoShort()
      ensures exact && limit == count && old(lastIoErrorNbr) == 0 ==> lastIoErrorNbr == 0
      decreases readAhead, count, 1
    {
      hide SlotMatches, SlotFull, SlotAligned, Same, SlotSound, Undamaged, GoodUpTo;
      var s := cache[nbr];
      var dataAvailable := s.cacheSize + s.cacheOffset - offset;
      var good := s.cacheStatus + s.cacheOffset - offset;
      if sectors {
        AlignedHit(s, disk.sectorSize, offset, count);
      }
      ghost var short := 0;
      if exact {
        short := GoodAfterHit(s, count, offset, limit);
      }
      if count <= dataAvailable {
        CopyOut(s, dst, at, count, offset);
        res := if good < count then good else count;
      } else {
        CopyOut(s, dst, at, dataAvailable, offset);
        label copied:
        var rest := PreadAux(dst, at + dataAvailable, count - dataAvailable, offset + dataAvailable, readAhead, full,
                             sectors, exact, short);
        OutsideKept(old(dst[..]), old@copied(dst[..]), dst[..], at, dataAvailable, count);
        res := good + rest;
        SameUpTo(old@copied(dst[..]), dst[..], at, dataAvailable, disk.content, offset);
        SameJoin(dst[..], at, dataAvailable, count - dataAvailable, disk.content, offset);
      }
    }

    /** cache->cache_size = 0 */
    method Discard(nbr: nat)
      requires Valid() && nbr < CACHE_BUFFER_NBR
      modifies cache
      ensures cache[nbr] == old(cache[nbr]).(cacheSize := 0)
      ensures forall i :: 0 <= i < CACHE_BUFFER_NBR && i != nbr ==> cache[i] == old(cache[i])
      ensures Valid() && (old(Full()) ==> Full()) && (old(Aligned()) ==> Aligned())
    {
      cache[nbr] := cache[nbr].(cacheSize := 0);
    }

    /** memcpy(buffer, cache->buffer + offset - cache->cache_offset, n) */
    method CopyOut(s: Slot, dst: array<byte>, at: nat, n: nat, offset: nat)
      requires SlotMatches(s, disk.content) && Holds(s, offset) && offset + n <= s.cacheOffset + s.cacheSize
      requires at + n <= dst.Length
      modifies dst
      ensures dst[..at] == old(dst[..at]) && dst[at + n..] == old(dst[at + n..])
      ensures s.cacheStatus + s.cacheOffset - offset >= n ==> Delivered(dst, at, n, offset)
      ensures s.cacheStatus <= s.cacheSize && (SlotFull(s) ==> s.cacheStatus == s.cacheSize)
    {
      hide Same;
      var from := offset - s.cacheOffset;
      HitIsGood(s, disk.content, offset, n);
      Copy(dst, at, s.buffer.value[from..from + n]);
      CopiedIsSame(dst[..], at, s.buffer.value[from..from + n], disk.content, offset);
    }

    method ServeMiss(dst: array<byte>, at: nat, count: nat, offset: nat, readAhead: bool, ghost full: bool,
                     ghost sectors: bool, ghost exact: bool, ghost limit: nat)
      returns (res: int)
      requires Valid() && at + count <= dst.Length
      requires (full ==> Served(count, offset)) && (sectors ==> Sectors(count, offset))
      requires exact ==> sectors && GoodUpTo(count, offset, limit) && NoShort() && NotHeld(offset)
      requires exact ==> lastIoErrorNbr == 0 || (count == disk.sectorSize && !readAhead)
      modifies this`cacheBufferNbr, this`lastIoErrorNbr, cache, dst
      ensures Valid() && res <= count
      ensures dst[..at] == old(dst[..at]) && dst[at + count..] == old(dst[at + count..])
      ensures full ==> Served(count, offset) && res == count && Delivered(dst, at, count, offset)
      ensures sectors ==> Sectors(count, offset) && (res == count ==> Delivered(dst, at, count, offset))
                          && (res > 0 && count == disk.sectorSize ==> res == count)
      ensures exact && limit == count ==> res == count
      ensures exact && limit < count ==> res <= limit
      ensures exact && limit < count && disk.sectorSize < count ==> res == limit && Delivered(dst, at, limit, offset)
      ensures exact && limit == count == disk.sectorSize && !readAhead ==> NoShort()
      ensures exact && limit == count ==> lastIoErrorNbr == 0
      decreases readAhead, count, 2
    {
      hide SlotMatches, SlotFull, SlotAligned, Same, SlotSound, Undamaged, GoodUpTo;
      var more := readAhead && count < cacheSizeMin && offset + cacheSizeMin < diskRealSize;
      var countNew := if more then cacheSizeMin else count;
      Refill(countNew, offset);
      var s := cache[cacheBufferNbr];
      BufferLength(s, disk.content);
      if exact {
        GoodAfterRead(s, countNew, count, offset, limit);
      }
      if s.cacheStatus >= count {
        lastIoErrorNbr := 0;
        if countNew == count {
          AllThere(s);
        }
        if count > 0 {
          CopyOut(s, dst, at, count, offset);
        } else {
          SameNothing(dst[..], at, disk.content, offset);
        }
        return count;
      }
      res := ReadFailure(dst, at, count, countNew, offset, readAhead, sectors, exact, limit);
    }

    /** The device gave fewer than `count` bytes. */
    method ReadFailure(dst: array<byte>, at: nat, count: nat, countNew: nat, offset: nat, ghost readAhead: bool,
                       ghost sectors: bool, ghost exact: bool, ghost limit: nat)
      returns (res: int)
      requires Valid() && at + count <= dst.Length && count <= countNew && (!readAhead ==> count == countNew)
      requires sectors ==> Sectors(count, offset)
      requires var s := cache[cacheBufferNbr];
               s.buffer.Some? && countNew <= |s.buffer.value| && s.cacheSize == countNew && s.cacheStatus < count
      requires exact ==> sectors && GoodUpTo(count, offset, limit) && NoShortBut(cacheBufferNbr)
      requires exact ==> lastIoErrorNbr == 0 || (count == disk.sectorSize && !readAhead)
      requires exact ==> forall i :: 0 <= i < cache.Length && i != cacheBufferNbr ==> !Holds(cache[i], offset)
      requires exact ==> cache[cacheBufferNbr].cacheStatus <= limit && (countNew <= disk.sectorSize ==> limit < count)
      modifies this`cacheBufferNbr, this`lastIoErrorNbr, cache, dst
      ensures Valid() && res <= count
      ensures dst[..at] == old(dst[..at]) && dst[at + count..] == old(dst[at + count..])
      ensures sectors ==> Sectors(count, offset) && (res == count ==> Delivered(dst, at, count, offset))
                          && (res > 0 && count == disk.sectorSize ==> res == count)
      ensures exact && limit == count ==> res == count
      ensures exact && limit < count ==> res <= limit
      ensures exact && limit < count && disk.sectorSize < count ==> res == limit && Delivered(dst, at, limit, offset)
      ensures exact && countNew <= disk.sectorSize ==> limit < count
      ensures exact && limit == count ==> lastIoErrorNbr == 0
      decreases readAhead, count, 1
    {
      hide SlotMatches, SlotFull, Same, SlotSound, Undamaged, GoodUpTo, Holds;
      var s := cache[cacheBufferNbr];
      lastIoErrorNbr := lastIoErrorNbr + 1;
      if countNew <= disk.sectorSize || disk.sectorSize <= 0 || lastIoErrorNbr > 1 {
        Copy(dst, at, s.buffer.value[..count]);
        if sectors && s.cacheStatus > 0 {
          MultiplesApart(0, s.cacheStatus, disk.sectorSize);
        }
        return s.cacheStatus;
      }
      // Free the existing cache
      Discard(cacheBufferNbr);
      assert exact ==> NoShort() by {
        NothingClaimed(cache[cacheBufferNbr], offset);
      }
      assert exact ==> NotHeld(offset) by {
        NothingClaimed(cache[cacheBufferNbr], offset);
      }
      // split the read sector by sector
      Copy(dst, at, seq(count, _ => 0));
      res := SplitRead(dst, at, count, offset, readAhead, sectors, exact, limit);
    }

    method SplitRead(dst: array<byte>, at: nat, count: nat, offset: nat, ghost readAhead: bool, ghost sectors: bool,
                     ghost exact: bool, ghost limit: nat)
      returns (res: int)
      requires Valid() && at + count <= dst.Length && disk.sectorSize > 0
      requires !readAhead ==> count > disk.sectorSize
      requires sectors ==> Sectors(count, offset)
      requires exact ==> sectors && GoodUpTo(count, offset, limit) && NoShort() && NotHeld(offset)
      modifies this`cacheBufferNbr, this`lastIoErrorNbr, cache, dst
      ensures Valid() && res <= count
      ensures dst[..at] == old(dst[..at]) && dst[at + count..] == old(dst[at + count..])
      ensures sectors ==> Sectors(count, offset) && (res == count ==> Delivered(dst, at, count, offset))
                          && (res > 0 && count == disk.sectorSize ==> res == count)
      ensures exact ==> res == limit && Delivered(dst, at, limit, offset)
      ensures exact && limit == count ==> lastIoErrorNbr == 0
      decreases readAhead, count, 0, 1
    {
      hide SlotMatches, SlotFull, SlotAligned, Same, SlotSound, Undamaged, GoodUpTo, Holds;
      var ss := disk.sectorSize;
      var off := 0;
      SameNothing(dst[..], at, disk.content, offset);
      if exact {
        GoodBounds(count, offset, limit);
      }
      while off < count
        invariant 0 <= off && Valid()
        invariant dst[..at] == old(dst[..at]) && dst[at + count..] == old(dst[at + count..])
        invariant sectors ==> Sectors(count, offset) && off % ss == 0 && off <= count && Delivered(dst, at, off, offset)
        invariant exact ==> NoShort() && off <= limit
        invariant exact ==> if off == 0 then NotHeld(offset) else lastIoErrorNbr == 0
        decreases count - off
      {
        var r := SplitStep(dst, at, count, offset, off, readAhead, sectors, exact, limit);
        if r <= 0 {
          if sectors && count == ss {
            MultiplesApart(off, count, ss);
          }
          return off;
        }
        off := off + ss;
      }
      return count;
    }

    /** The sector at `off`. */
    method SplitStep(dst: array<byte>, at: nat, count: nat, offset: nat, off: nat, ghost readAhead: bool,
                     ghost sectors: bool, ghost exact: bool, ghost limit: nat)
      returns (r: int)
      requires Valid() && at + count <= dst.Length && disk.sectorSize > 0 && off < count
      requires !readAhead ==> count > disk.sectorSize
      requires sectors ==> Sectors(count, offset) && off % disk.sectorSize == 0 && Delivered(dst, at, off, offset)
      requires exact ==> sectors && GoodUpTo(count, offset, limit) && NoShort() && off <= limit
      modifies this`cacheBufferNbr, this`lastIoErrorNbr, cache, dst
      ensures Valid()
      ensures dst[..at] == old(dst[..at]) && dst[at + count..] == old(dst[at + count..])
      ensures sectors ==> Sectors(count, offset) && Delivered(dst, at, off, offset)
      ensures sectors && r > 0 ==>
                && off + disk.sectorSize <= count && (off + disk.sectorSize) % disk.sectorSize == 0
                && Delivered(dst, at, off + disk.sectorSize, offset)
      ensures exact && off < limit ==> r > 0 && NoShort() && off + disk.sectorSize <= limit
      ensures exact && off < limit && (old(lastIoErrorNbr) == 0 || old(NotHeld(offset + off))) ==> lastIoErrorNbr == 0
      ensures exact && off == limit ==> r <= 0
      decreases readAhead, count, 0, 0
    {
      hide SlotMatches, SlotFull, SlotAligned, Same, SlotSound, Undamaged, GoodUpTo, Holds;
      var ss := disk.sectorSize;
      if sectors {
        MultiplesApart(off, count, ss);
        ModAdd(offset, off, ss);
        ModAdd(off, ss, ss);
      }
      ghost var good := if off < limit then ss else 0;
      if exact {
        GoodOne(count, offset, limit, off);
      }
      var chunk := if ss < count - off then ss else count - off;
      r := PreadAux(dst, at + off, chunk, offset + off, false, false, sectors, exact, good);
      OutsideSplit(old(dst[..]), dst[..], at, off, chunk, count);
      if sectors {
        SameUpTo(old(dst[..]), dst[..], at, off, disk.content, offset);
        if r > 0 {
          SameJoin(dst[..], at, off, ss, disk.content, offset);
        }
      }
    }

    lemma GoodBounds(count: nat, offset: nat, limit: nat)
      requires GoodUpTo(count, offset, limit)
      ensures limit <= count && count > 0
    {
    }

    /** A write inside a range leaves what is outside it alone. */
    static lemma OutsideSplit(a: seq<byte>, b: seq<byte>, at: nat, off: nat, chunk: nat, count: nat)
      requires |a| == |b| && off + chunk <= count && at + count <= |a|
      requires b[..at + off] == a[..at + off] && b[at + off + chunk..] == a[at + off + chunk..]
      ensures b[..at] == a[..at] && b[at + count..] == a[at + count..]
    {
      assert b[..at] == b[..at + off][..at] && a[..at] == a[..at + off][..at];
      assert b[at + count..] == b[at + off + chunk..][count - off - chunk..];
      assert a[at + count..] == a[at + off + chunk..][count - off - chunk..];
    }

    /** cache_pread: with every slot full the answer is the disk's own; on a failing disk a return of
        `count` still certifies the bytes of a sector-aligned request.  After no error and with no short slot the
        answer is count exactly when all sectors are good; `limit` bytes before the first bad one are delivered,
        unless they are cached already, and never more are vouched for. */
    method Pread(dst: array<byte>, count: nat, offset: nat, ghost limit: nat) returns (res: int)
      requires Valid() && count <= dst.Length
      modifies this`cacheBufferNbr, this`lastIoErrorNbr, cache, dst
      ensures Valid() && res <= count && dst[count..] == old(dst[count..])
      ensures old(Served(count, offset)) ==> Full() && res == count && Delivered(dst, 0, count, offset)
      ensures old(Sectors(count, offset)) ==>
                Sectors(count, offset) && (res == count ==> Delivered(dst, 0, count, offset))
      ensures old(Sectors(count, offset) && GoodUpTo(count, offset, limit) && NoShort() && lastIoErrorNbr == 0) ==>
                && (res == count <==> limit == count)
                && (limit == count ==> lastIoErrorNbr == 0)
                && (limit < count ==> res <= limit)
                && (limit < count && disk.sectorSize < count && old(NotHeld(offset)) ==>
                      res == limit && Delivered(dst, 0, limit, offset))
    {
      hide SlotMatches, SlotFull, SlotAligned, Same, SlotSound, Undamaged;
      ghost var exact := Sectors(count, offset) && GoodUpTo(count, offset, limit) && NoShort() && lastIoErrorNbr == 0;
      res := PreadAux(dst, 0, count, offset, lastIoErrorNbr == 0, Served(count, offset), Sectors(count, offset), exact,
                      limit);
    }

    /** cache_pwrite: no slot that overlaps the written range survives, every other slot is kept. */
    method Pwrite(data: seq<byte>, offset: nat) returns (res: int)
      requires Valid()
      modifies this`writeUsed, cache, disk`content
      ensures Valid() && writeUsed
      ensures |disk.content| == |old(disk.content)|
      ensures disk.reliable && old(disk.InRange(|data|, offset)) ==>
                res == |data| && disk.content == Patched(old(disk.content), offset, data)
      ensures old(Full()) ==> Full()
      ensures old(Aligned()) ==> Aligned()
      ensures forall i :: 0 <= i < CACHE_BUFFER_NBR && old(cache[i].cacheSize) > 0 && |data| > 0 ==>
                cache[i] == if Overlaps(old(cache[i]), |data|, offset) then old(cache[i]).(cacheSize := 0)
                  else old(cache[i])
    {
      for i := 0 to CACHE_BUFFER_NBR
        invariant disk.content == old(disk.content)
        invariant Valid() && (old(Full()) ==> Full()) && (old(Aligned()) ==> Aligned())
        invariant forall j :: i <= j < CACHE_BUFFER_NBR ==> cache[j] == old(cache[j])
        invariant forall j :: 0 <= j < i ==> cache[j].cacheSize > 0 && |data| > 0 ==>
                    !Overlaps(cache[j], |data|, offset)
        invariant forall j :: 0 <= j < i && old(cache[j].cacheSize) > 0 && |data| > 0 ==>
                    cache[j] == if Overlaps(old(cache[j]), |data|, offset) then old(cache[j]).(cacheSize := 0)
                      else old(cache[j])
      {
        var s := cache[i];
        if !(Minus1(s.cacheOffset + s.cacheSize) < offset || Minus1(offset + |data|) < s.cacheOffset) {
          Discard(i);
        }
      }
      writeUsed := true;
      label invalidated:
      res := disk.Pwrite(data, offset);
      forall i | 0 <= i < CACHE_BUFFER_NBR
        ensures SlotMatches(cache[i], disk.content)
      {
        MatchesAfterWrite(cache[i], old@invalidated(disk.content), disk.content, |data|, offset);
      }
    }

    /** Any sequence of in-range reads and writes through the cache behaves like the bare disk. */
    method Replay(ops: seq<Request>) returns (log: seq<seq<byte>>)
      requires Full() && forall op :: op in ops ==> Fits(op, |disk.content|)
      modifies this`cacheBufferNbr, this`lastIoErrorNbr, this`writeUsed, cache, disk`content
      ensures Full()
      ensures (log, disk.content) == Direct(old(disk.content), ops)
      decreases |ops|
    {
      hide SlotMatches, SlotFull, SlotAligned, SlotSound, Direct, Same;
      ghost var was := disk.content;
      DirectStep(was, ops);
      if |ops| == 0 {
        return [];
      }
      var rest := ops[1..];
      assert ops == [ops[0]] + rest;
      assert Fits(ops[0], |disk.content|);
      match ops[0] {
        case Read(count, offset) =>
          var dst := new byte[count](_ => 0);
          var res := Pread(dst, count, offset, 0);
          WholeBuffer(dst[..], was, offset);
          var tail := Replay(rest);
          log := [dst[..]] + tail;
        case Write(data, offset) =>
          var res := Pwrite(data, offset);
          assert disk.content == Patched(was, offset, data);
          log := Replay(rest);
      }
    }
  }

  lemma DirectStep(content: seq<byte>, ops: seq<Request>)
    requires forall op :: op in ops ==> Fits(op, |content|)
    ensures |ops| == 0 ==> Direct(content, ops) == ([], content)
    ensures |ops| > 0 && ops[0].Read? ==>
              && Fits(ops[0], |content|)
              && var (log, end) := Direct(content, ops[1..]);
                 Direct(content, ops) == ([content[ops[0].offset..ops[0].offset + ops[0].count]] + log, end)
    ensures |ops| > 0 && ops[0].Write? ==>
              && Fits(ops[0], |content|)
              && Direct(content, ops) == Direct(Patched(content, ops[0].offset, ops[0].data), ops[1..])
  {
    if |ops| > 0 {
      assert Fits(ops[0], |content|);
    }
  }

  lemma WholeBuffer(d: seq<byte>, content: seq<byte>, offset: nat)
    requires Same(d, 0, |d|, content, offset) && offset + |d| <= |content|
    ensures d == content[offset..offset + |d|]
  {
    assert d[0..|d|] == d;
  }

  lemma AllThere(s: Slot)
    requires s.cacheStatus == s.cacheSize
    ensures SlotFull(s)
  {
  }

  lemma NothingClaimed(s: Slot, offset: nat)
    requires s.cacheSize == 0
    ensures SlotFull(s) && !Holds(s, offset)
  {
  }

  /** A full slot serves no lost byte, so it does not reach beyond the good sectors. */
  lemma SoundHit(s: Slot, lost: set<nat>, ss: nat, offset: nat, count: nat, limit: nat)
    requires SlotSound(s, lost) && SlotFull(s) && SlotAligned(s, ss) && Holds(s, offset)
    requires offset % ss == 0 && count % ss == 0 && limit % ss == 0 && limit <= count && Undamaged(lost, offset, limit)
    requires limit < count ==> !Undamaged(lost, offset + limit, ss)
    ensures var available := s.cacheSize + s.cacheOffset - offset;
            && s.cacheStatus == s.cacheSize
            && (if count <= available then limit == count
                else
                  && available <= limit && (limit - available) % ss == 0
                  && Undamaged(lost, offset + available, limit - available))
  {
    AlignedHit(s, ss, offset, count);
    var available := s.cacheSize + s.cacheOffset - offset;
    assert s.cacheSize > 0;
    if limit < count && limit < available {
      ModAdd(offset + available, offset, ss);
      MultiplesApart(limit, available, ss);
    }
    if count > available {
      ModAdd(offset + available, offset, ss);
      ModAdd(limit, available, ss);
    }
  }

  /** What a read vouches for ends before the first bad sector. */
  lemma SoundRead(s: Slot, lost: set<nat>, ss: nat, offset: nat, count: nat, limit: nat)
    requires SlotSound(s, lost) && SlotAligned(s, ss) && s.buffer.Some? && s.cacheOffset == offset && s.cacheSize > 0
    requires count % ss == 0 && limit % ss == 0 && limit <= count && Undamaged(lost, offset, limit)
    requires limit < count ==> !Undamaged(lost, offset + limit, ss)
    ensures limit < count ==> s.cacheStatus <= limit
  {
    if limit < count && s.cacheStatus > limit {
      MultiplesApart(limit, s.cacheStatus, ss);
    }
  }

  /** The sector at `off`: all of it, or nothing, is good. */
  lemma SectorAt(lost: set<nat>, ss: nat, count: nat, offset: nat, limit: nat, off: nat) returns (good: nat)
    requires ss > 0 && off % ss == 0 && limit % ss == 0 && count % ss == 0 && off <= limit <= count && off < count
    requires Undamaged(lost, offset, limit) && (limit < count ==> !Undamaged(lost, offset + limit, ss))
    ensures good == if off < limit then ss else 0
    ensures off + ss <= count && (off < limit ==> off + ss <= limit) && good % ss == 0
    ensures Undamaged(lost, offset + off, good) && (good < ss ==> !Undamaged(lost, offset + off, ss))
  {
    good := if off < limit then ss else 0;
    MultiplesApart(off, count, ss);
    ModOfMultiple(1, ss);
    if off < limit {
      MultiplesApart(off, limit, ss);
    }
  }

  datatype Request = Read(count: nat, offset: nat) | Write(data: seq<byte>, offset: nat)

  predicate Fits(r: Request, size: nat) {
    match r
    case Read(count, offset) => offset + count <= size
    case Write(data, offset) => offset + |data| <= size
  }

  /** What the requests give, and leave behind, on a disk without a cache. */
  function Direct(content: seq<byte>, ops: seq<Request>): (seq<seq<byte>>, seq<byte>)
    requires forall op :: op in ops ==> Fits(op, |content|)
    decreases |ops|
  {
    if |ops| == 0 then ([], content)
    else
      assert Fits(ops[0], |content|);
      match ops[0]
      case Read(count, offset) =>
        var (log, end) := Direct(content, ops[1..]);
        ([content[offset..offset + count]] + log, end)
      case Write(data, offset) =>
        Direct(Patched(content, offset, data), ops[1..])
  }

  /** The slot covers a byte of the range. */
  predicate Overlaps(s: Slot, count: nat, offset: nat) {
    s.cacheOffset < offset + count && offset < s.cacheOffset + s.cacheSize
  }

  lemma MatchesAfterWrite(s: Slot, before: seq<byte>, after: seq<byte>, count: nat, offset: nat)
    requires SlotMatches(s, before) && |before| == |after|
    requires forall i :: 0 <= i < |before| && !(offset <= i < offset + count) ==> after[i] == before[i]
    requires s.cacheSize > 0 && count > 0 ==> !Overlaps(s, count, offset)
    ensures SlotMatches(s, after)
  {
    if s.buffer.Some? && s.cacheSize > 0 && s.cacheStatus > 0 {
      assert after[s.cacheOffset..s.cacheOffset + s.cacheStatus]
              == before[s.cacheOffset..s.cacheOffset + s.cacheStatus];
    }
  }

  /** d[at..at+n] equals content[offset..offset+n]. */
  ghost predicate Same(d: seq<byte>, at: nat, n: nat, content: seq<byte>, offset: nat) {
    at + n <= |d| && (n > 0 ==> offset + n <= |content| && d[at..at + n] == content[offset..offset + n])
  }

  lemma CopiedIsSame(d: seq<byte>, at: nat, src: seq<byte>, content: seq<byte>, offset: nat)
    requires at + |src| <= |d| && d[at..at + |src|] == src
    ensures |src| > 0 && offset + |src| <= |content| && src == content[offset..offset + |src|]
            ==> Same(d, at, |src|, content, offset)
    ensures |src| == 0 ==> Same(d, at, 0, content, offset)
  {
  }

  lemma SameUpTo(d: seq<byte>, e: seq<byte>, at: nat, n: nat, content: seq<byte>, offset: nat)
    requires at + n <= |d| == |e| && d[..at + n] == e[..at + n]
    ensures Same(d, at, n, content, offset) ==> Same(e, at, n, content, offset)
  {
    assert d[at..at + n] == d[..at + n][at..] && e[at..at + n] == e[..at + n][at..];
  }

  lemma SameJoin(d: seq<byte>, at: nat, n: nat, m: nat, content: seq<byte>, offset: nat)
    ensures Same(d, at, n, content, offset) && Same(d, at + n, m, content, offset + n) ==>
              Same(d, at, n + m, content, offset)
  {
    if Same(d, at, n, content, offset) && Same(d, at + n, m, content, offset + n) && n + m > 0 {
      assert d[at..at + n + m] == d[at..at + n] + d[at + n..at + n + m];
      if m > 0 && n > 0 {
        assert content[offset..offset + n + m] == content[offset..offset + n] + content[offset + n..offset + n + m];
      }
    }
  }

  lemma SameNothing(d: seq<byte>, at: nat, content: seq<byte>, offset: nat)
    requires at <= |d|
    ensures Same(d, at, 0, content, offset)
  {
  }

  /** memcpy into dst[at..] */
  method Copy(dst: array<byte>, at: nat, src: seq<byte>)
    requires at + |src| <= dst.Length
    modifies dst
    ensures dst[at..at + |src|] == src
    ensures dst[..at] == old(dst[..at]) && dst[at + |src|..] == old(dst[at + |src|..])
  {
    forall i | at <= i < at + |src| {
      dst[i] := src[i - at];
    }
  }

  lemma BufferLength(s: Slot, content: seq<byte>)
    requires SlotMatches(s, content)
    ensures s.buffer.Some? ==> |s.buffer.value| == s.bufferSize
  {
  }

  lemma SliceOfSlice<T>(s: seq<T>, a: nat, b: nat, c: nat, d: nat)
    requires a <= b <= |s| && c <= d <= b - a
    ensures s[a..b][c..d] == s[a + c..a + d]
  {
    forall i | 0 <= i < d - c
      ensures s[a..b][c..d][i] == s[a + c..a + d][i]
    {
    }
  }

  /** The bytes a slot serves from its good prefix are disk bytes. */
  lemma HitIsGood(s: Slot, content: seq<byte>, offset: nat, n: nat)
    requires SlotMatches(s, content) && Holds(s, offset)
    requires offset + n <= s.cacheOffset + s.cacheSize
    ensures offset - s.cacheOffset + n <= |s.buffer.value| && s.cacheStatus <= s.cacheSize
    ensures SlotFull(s) ==> s.cacheStatus == s.cacheSize
    ensures s.cacheStatus + s.cacheOffset - offset >= n && n > 0 ==>
              && offset + n <= |content|
              && s.buffer.value[offset - s.cacheOffset..offset - s.cacheOffset + n] == content[offset..offset + n]
  {
    var from := offset - s.cacheOffset;
    if s.cacheStatus - from >= n && n > 0 {
      SliceOfSlice(s.buffer.value, 0, s.cacheStatus, from, from + n);
      SliceOfSlice(content, s.cacheOffset, s.cacheOffset + s.cacheStatus, from, from + n);
    }
  }

  lemma AlignedHit(s: Slot, ss: nat, offset: nat, count: nat)
    requires SlotAligned(s, ss) && Holds(s, offset) && offset % ss == 0 && count % ss == 0
    ensures var available := s.cacheSize + s.cacheOffset - offset;
            available >= ss && (offset + available) % ss == 0 && (count - available) % ss == 0
    ensures s.cacheStatus + s.cacheOffset - offset > 0 ==> s.cacheStatus + s.cacheOffset - offset >= ss
  {
    var available := s.cacheSize + s.cacheOffset - offset;
    ModAdd(s.cacheOffset, offset, ss);
    ModAdd(s.cacheSize, s.cacheOffset - offset, ss);
    MultiplesApart(0, available, ss);
    ModAdd(offset, available, ss);
    ModAdd(count, available, ss);
    if s.cacheStatus + s.cacheOffset - offset > 0 {
      ModAdd(s.cacheStatus, s.cacheOffset - offset, ss);
      MultiplesApart(0, s.cacheStatus + s.cacheOffset - offset, ss);
    }
  }

  /** The j-th slot looked at when the search starts from `start`. */
  ghost function Seen(start: nat, j: nat): (k: nat)
    requires start < CACHE_BUFFER_NBR && j < CACHE_BUFFER_NBR
    ensures k < CACHE_BUFFER_NBR
  {
    if j <= start then start - j else start + CACHE_BUFFER_NBR - j
  }

  lemma SeenFirst(start: nat)
    requires start < CACHE_BUFFER_NBR
    ensures Seen(start, 0) == start
  {
  }

  lemma SeenNext(start: nat, j: nat)
    requires start < CACHE_BUFFER_NBR && j < CACHE_BUFFER_NBR
    ensures j + 1 < CACHE_BUFFER_NBR ==>
              Seen(start, j + 1) == (Seen(start, j) + CACHE_BUFFER_NBR - 1) % CACHE_BUFFER_NBR
  {
  }

  /** Every slot is seen. */
  lemma SeenAt(start: nat, k: nat) returns (j: nat)
    requires start < CACHE_BUFFER_NBR && k < CACHE_BUFFER_NBR
    ensures j < CACHE_BUFFER_NBR && Seen(start, j) == k
  {
    j := if k <= start then start - k else start + CACHE_BUFFER_NBR - k;
  }
}
