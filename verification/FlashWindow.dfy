/**
 * Flat flash under the update protocol (src/platform/flash_encryption.rs, src/platform/usb_update.rs): reads go
 * through one movable 64 KiB cache window, writes in 32-byte blocks, erases in 4 KiB sectors.
 *
 * Flash is its plaintext: the ROM's encryption and the cache's decryption undo each other on a block that was erased
 * before it was written, and anything else reads as arbitrary bytes. Every mapping, write and erase call takes its
 * result code, and what it leaves when it fails, from a tape.
 */
module FlashWindow {
  import opened Words
  import opened OtaMetadata
  import opened FlashBackend

  const PAGE := 0x1_0000
  const SPACE := 0x1_0000_0000

  /** The number of the physical 64 KiB page that the window shows except during a read. */
  const FIXED_PAGE: PageNumber := 2

  type FlatFlash = f: Bytes | |f| == SPACE witness Fill(SPACE, 0xff)
  type PageView = p: Bytes | |p| == PAGE witness Fill(PAGE, 0xff)
  type PageNumber = p: nat | p < 0x1_0000

  datatype Error =
    | Disabled | MappingFailed(code: int) | UnmappedRange | NotAligned
    | UnlockFailed(code: int) | EraseFailed(code: int) | WriteFailed(code: int) | BadAddress

  /** A call's result code, the page a failed mapping leaves in the window, and whatever bytes are left undefined. */
  datatype Reply = Reply(code: int, page: PageNumber, stale: PageView)

  function PageOf(f: FlatFlash, page: PageNumber): (p: PageView)
    ensures forall i :: 0 <= i < PAGE ==> p[i] == f[0x1_0000 * page + i]
  {
    f[0x1_0000 * page..0x1_0000 * page + PAGE]
  }

  /** How many pages a range touches. */
  function PageCount(address: nat, length: nat): nat {
    if length == 0 then 0 else (address + length - 1) / 0x1_0000 - address / 0x1_0000 + 1
  }

  /** Reading up to the end of the first page leaves one page less. */
  lemma PageCountStep(page: nat, offset: nat, length: nat)
    requires length > 0 && offset < PAGE
    ensures var address := 0x1_0000 * page + offset;
            var count := Min(length, PAGE - offset);
            PageCount(address, length) == 1 + PageCount(address + count, length - count)
  {
    var address, count := 0x1_0000 * page + offset, Min(length, PAGE - offset);
    assert address / 0x1_0000 == page;
    if count < length {
      assert address + count == 0x1_0000 * (page + 1);
    } else {
      assert (address + length - 1) / 0x1_0000 == page;
    }
  }

  lemma NoPages(address: nat)
    ensures PageCount(address, 0) == 0
  {
  }

  lemma NextSlice(f: FlatFlash, a: nat, b: nat, c: nat)
    requires a <= b <= c <= SPACE
    ensures f[a..c] == f[a..b] + f[b..c]
  {
  }

  lemma Subslice(f: FlatFlash, a: nat, b: nat, lo: nat, hi: nat)
    requires a <= b <= SPACE && lo <= hi <= b - a
    ensures f[a..b][lo..hi] == f[a + lo..a + hi]
  {
    var s, t := f[a..b][lo..hi], f[a + lo..a + hi];
    assert forall i :: 0 <= i < hi - lo ==> s[i] == f[a..b][lo + i] == t[i];
    assert s == t;
  }

  // ---- Where slots lie ----

  function Base(slot: byte): nat
    requires slot < 2
  {
    if slot == 0 then 0x2_0000 else 0x20_0000
  }

  /** The flat address of a range of a slot, when the range lies in it. */
  function Address(slot: byte, offset: u32, length: nat): (r: Option<u32>)
    ensures r.Some? <==> InSlot(slot, offset, length)
    ensures r.Some? ==> r.value == Base(slot) + offset
  {
    var base := UpdateSlotOffset(slot);
    if base.None? || length > U32_MAX || offset + length > U32_MAX || offset + length > OTA_SLOT_SIZE then None
    else Some(base.value + offset)
  }

  function SlotView(f: FlatFlash, slot: byte): Slot
    requires slot < 2
  {
    f[Base(slot)..Base(slot) + OTA_SLOT_SIZE]
  }

  /** The bytes at addresses outside `address..address + length` are the same in both. */
  predicate SameOutside(f: FlatFlash, g: FlatFlash, address: nat, length: nat) {
    forall i :: 0 <= i < SPACE && !(address <= i < address + length) ==> g[i] == f[i]
  }

  /**
   * A change inside a range of one slot is exactly a splice into that slot: the other slot, and every byte below
   * the first slot or above the second (boot records, credential store), stays as it was.
   */
  lemma SlotsAreSeparate(f: FlatFlash, g: FlatFlash, slot: byte, offset: u32, length: nat)
    requires InSlot(slot, offset, length) && SameOutside(f, g, Base(slot) + offset, length)
    ensures SlotView(g, 1 - slot) == SlotView(f, 1 - slot)
    ensures SlotView(g, slot) ==
            Splice(SlotView(f, slot), offset, g[Base(slot) + offset..Base(slot) + offset + length])
    ensures g[..0x2_0000] == f[..0x2_0000] && g[0x3e_0000..] == f[0x3e_0000..]
  {
    var base, other, at := Base(slot), Base(1 - slot), Base(slot) + offset;
    SameElsewhere(f, g, at, length, other, other + OTA_SLOT_SIZE);
    SameElsewhere(f, g, at, length, base, at);
    SameElsewhere(f, g, at, length, at + length, base + OTA_SLOT_SIZE);
    SameElsewhere(f, g, at, length, 0, 0x2_0000);
    SameElsewhere(f, g, at, length, 0x3e_0000, SPACE);
    Subslice(f, base, base + OTA_SLOT_SIZE, 0, offset);
    Subslice(f, base, base + OTA_SLOT_SIZE, offset + length, OTA_SLOT_SIZE);
    NextSlice(g, base, at, at + length);
    NextSlice(g, base, at + length, base + OTA_SLOT_SIZE);
  }

  lemma SameElsewhere(f: FlatFlash, g: FlatFlash, address: nat, length: nat, lo: nat, hi: nat)
    requires SameOutside(f, g, address, length) && lo <= hi <= SPACE && (hi <= address || address + length <= lo)
    ensures g[lo..hi] == f[lo..hi]
  {
  }

  // ---- Blocks known to be erased ----

  /** The 32-byte blocks of a range are all erased. */
  ghost predicate ErasedIn(erased: set<int>, address: nat, length: nat) {
    forall b :: address <= 32 * b < address + length ==> b in erased
  }

  /** The block after those that are in place is in place as well. */
  lemma OneMoreBlock(f: FlatFlash, g: FlatFlash, first: nat, i: nat, data: Bytes)
    requires 32 * i + 32 <= |data| && 32 * first + |data| <= SPACE && SameOutside(f, g, 32 * (first + i), 32)
    ensures f[32 * first..32 * (first + i)] == data[..32 * i] &&
            g[32 * (first + i)..32 * (first + i) + 32] == data[32 * i..32 * i + 32] ==>
            g[32 * first..32 * (first + i + 1)] == data[..32 * (i + 1)]
  {
    SameElsewhere(f, g, 32 * (first + i), 32, 32 * first, 32 * (first + i));
    NextSlice(g, 32 * first, 32 * (first + i), 32 * (first + i) + 32);
    assert data[..32 * i + 32] == data[..32 * i] + data[32 * i..32 * i + 32];
  }

  function Blocks(first: nat, count: nat): (r: set<int>)
    ensures forall b :: b in r <==> first <= b < first + count
  {
    if count == 0 then {} else Blocks(first, count - 1) + {first + count - 1}
  }

  class Window {
    const tape: nat -> Reply
    var pos: nat
    var flash: FlatFlash
    var erased: set<int>
    var page: PageNumber
    var cached: PageView
    var initialized: bool

    constructor (tape: nat -> Reply, flash: FlatFlash)
      ensures this.tape == tape && this.flash == flash && page == FIXED_PAGE && pos == 0 && initialized
    {
      this.tape, this.flash, pos := tape, flash, 0;
      erased, page, cached, initialized := {}, FIXED_PAGE, Fill(PAGE, 0xff), true;
    }

    // ---- Reading ----

    /** Points the window at a page. What the cache then shows is stale until it is invalidated. */
    method MapDrom(target: PageNumber) returns (code: int)
      modifies this`pos, this`page, this`cached
      ensures pos == old(pos) + 1 && code == tape(old(pos)).code
      ensures page == if code == 0 then target else tape(old(pos)).page
    {
      var reply := tape(pos);
      pos := pos + 1;
      code := reply.code;
      page := if code == 0 then target else reply.page;
      cached := reply.stale;
    }

    method Invalidate()
      modifies this`cached
      ensures cached == PageOf(flash, page)
    {
      cached := PageOf(flash, page);
    }

    /** Success shows the asked bytes and puts the window back; failure leaves it where the failed call left it. */
    method MapPageAndCopy(target: PageNumber, offset: nat, count: nat) returns (r: Result<Bytes, Error>)
      requires offset + count <= PAGE
      modifies this`pos, this`page, this`cached
      ensures r.Ok? <==> tape(old(pos)).code == 0 && tape(old(pos) + 1).code == 0
      ensures r.Ok? ==> pos == old(pos) + 2 && page == FIXED_PAGE && cached == PageOf(flash, FIXED_PAGE)
      ensures r.Ok? ==> r.value == flash[0x1_0000 * target + offset..0x1_0000 * target + offset + count]
      ensures r.Err? ==> old(pos) < pos <= old(pos) + 2 && r == Err(MappingFailed(tape(pos - 1).code)) &&
                         tape(pos - 1).code != 0 && page == tape(pos - 1).page &&
                         (pos == old(pos) + 2 ==> tape(old(pos)).code == 0)
    {
      var mapped := MapDrom(target);
      if mapped != 0 {
        return Err(MappingFailed(mapped));
      }
      Invalidate();
      var copy := cached[offset..offset + count];
      assert copy == flash[0x1_0000 * target + offset..0x1_0000 * target + offset + count];
      var restored := MapDrom(FIXED_PAGE);
      Invalidate();
      if restored != 0 {
        return Err(MappingFailed(restored));
      }
      return Ok(copy);
    }

    /** The page an address lies in, and where. */
    method PageOf64K(address: u32) returns (page: PageNumber, offset: nat)
      ensures address == 0x1_0000 * page + offset && offset < PAGE
    {
      offset := address % 0x1_0000;
      page := (address - offset) / 0x1_0000;
    }

    /**
     * A read of any range, page by page, is a read of flat flash: on success the bytes are exactly those, every page
     * was mapped once and the window is back in place. It fails only if a mapping call failed, at that call.
     */
    method ReadUpdate(start: u32, length: nat) returns (r: Result<Bytes, Error>)
      modifies this`pos, this`page, this`cached
      ensures !initialized ==> r == Err(Disabled) && pos == old(pos)
      ensures initialized && start + length > U32_MAX ==> r == Err(UnmappedRange) && pos == old(pos)
      ensures r.Ok? ==> start + length <= U32_MAX && r.value == flash[start..start + length]
      ensures r.Ok? ==> pos == old(pos) + 2 * PageCount(start, length)
      ensures r.Ok? && old(page) == FIXED_PAGE ==> page == FIXED_PAGE
      ensures initialized && start + length <= U32_MAX && r.Err? ==>
        && old(pos) < pos <= old(pos) + 2 * PageCount(start, length)
        && r == Err(MappingFailed(tape(pos - 1).code)) && tape(pos - 1).code != 0 && page == tape(pos - 1).page
      ensures initialized && start + length <= U32_MAX ==>
        AllMapped(old(pos), if r.Ok? then pos else pos - 1)
    {
      hide PageCount;
      if !initialized {
        return Err(Disabled);
      }
      if length > U32_MAX || start + length > U32_MAX {
        return Err(UnmappedRange);
      }
      r := ReadPages(start, length);
    }

    method ReadPages(start: u32, length: nat) returns (r: Result<Bytes, Error>)
      requires start + length <= U32_MAX
      modifies this`pos, this`page, this`cached
      ensures r.Ok? ==> r.value == flash[start..start + length] && pos == old(pos) + 2 * PageCount(start, length)
      ensures r.Ok? && old(page) == FIXED_PAGE ==> page == FIXED_PAGE
      ensures r.Err? ==>
        && old(pos) < pos <= old(pos) + 2 * PageCount(start, length)
        && r == Err(MappingFailed(tape(pos - 1).code)) && tape(pos - 1).code != 0 && page == tape(pos - 1).page
      ensures AllMapped(old(pos), if r.Ok? then pos else pos - 1)
    {
      hide PageCount;
      var address: nat, rest: nat, output: Bytes := start, length, [];
      while rest > 0
        invariant start <= address && address + rest == start + length
        invariant output == flash[start..address]
        invariant pos + 2 * PageCount(address, rest) == old(pos) + 2 * PageCount(start, length)
        invariant pos >= old(pos) && (old(page) == FIXED_PAGE ==> page == FIXED_PAGE)
        invariant AllMapped(old(pos), pos)
      {
        var target, offset := PageOf64K(address);
        var count := Min(rest, PAGE - offset);
        PageCountStep(target, offset, rest);
        var copied := MapPageAndCopy(target, offset, count);
        if copied.Err? {
          return Err(copied.error);
        }
        NextSlice(flash, start, address, address + count);
        output := output + copied.value;
        address, rest := address + count, rest - count;
      }
      NoPages(address);
      return Ok(output);
    }

    /** A run of up to `count` calls from `lo` on: all of them succeeded, or the last one that was made failed. */
    ghost predicate Ran(lo: int, count: int, ok: bool)
      reads this
    {
      && AllMapped(lo, if ok then pos else pos - 1)
      && if ok then pos == lo + count else lo < pos <= lo + count && LastCode() != 0
    }

    /** What the last call answered. */
    ghost function LastCode(): int
      reads this
    {
      if pos == 0 then 0 else tape(pos - 1).code
    }

    /** The calls answered from `lo` to `hi` all succeeded. */
    ghost predicate AllMapped(lo: int, hi: int) {
      forall k: nat :: lo <= k < hi ==> tape(k).code == 0
    }

    // ---- Writing ----

    method Unlock() returns (code: int)
      modifies this`pos
      ensures pos == old(pos) + 1 && code == tape(old(pos)).code
    {
      code := tape(pos).code;
      pos := pos + 1;
    }

    /** One ROM call, on the 32-byte block `n`. A block that was erased then holds the data; otherwise anything. */
    method WriteBlock(n: nat, block: Bytes) returns (code: int)
      requires 32 * n + 32 <= SPACE && |block| == 32
      modifies this`pos, this`flash, this`erased
      ensures pos == old(pos) + 1 && code == tape(old(pos)).code
      ensures SameOutside(old(flash), flash, 32 * n, 32) && erased == old(erased) - {n}
      ensures code == 0 && n in old(erased) ==> flash[32 * n..32 * n + 32] == block
    {
      var reply := tape(pos);
      pos := pos + 1;
      code := reply.code;
      var held := if code == 0 && n in erased then block else reply.stale[..32];
      flash := flash[..32 * n] + held + flash[32 * n + 32..];
      erased := erased - {n};
    }

    method WriteUpdate(address: u32, data: Bytes) returns (r: Result<(), Error>)
      requires address + |data| <= SPACE
      modifies this`pos, this`flash, this`erased
      ensures SameOutside(old(flash), flash, address, |data|)
      ensures r.Err? && (r.error.Disabled? || r.error.NotAligned? || r.error.UnlockFailed?) ==> flash == old(flash)
      ensures !initialized ==> r == Err(Disabled) && pos == old(pos)
      ensures initialized && (address % 32 != 0 || |data| % 32 != 0) ==> r == Err(NotAligned) && pos == old(pos)
      ensures initialized && address % 32 == 0 && |data| % 32 == 0 ==>
        && Ran(old(pos), 1 + |data| / 32, r.Ok?)
        && (r.Err? ==> r == Err(if pos == old(pos) + 1 then UnlockFailed(tape(old(pos)).code)
                                else WriteFailed(LastCode())))
      ensures r.Ok? ==> address % 32 == 0 && |data| % 32 == 0
      ensures r.Ok? && ErasedIn(old(erased), address, |data|) ==> flash[address..address + |data|] == data
    {
      if !initialized {
        return Err(Disabled);
      }
      if address % 32 != 0 || |data| % 32 != 0 {
        return Err(NotAligned);
      }
      var unlocked := Unlock();
      if unlocked != 0 {
        return Err(UnlockFailed(unlocked));
      }
      var first, count := address / 32, |data| / 32;
      assert address == 32 * first && |data| == 32 * count;
      r := WriteBlocks(first, count, data);
    }

    method WriteBlocks(first: nat, count: nat, data: Bytes) returns (r: Result<(), Error>)
      requires |data| == 32 * count && 32 * first + |data| <= SPACE
      modifies this`pos, this`flash, this`erased
      ensures SameOutside(old(flash), flash, 32 * first, |data|)
      ensures Ran(old(pos), count, r.Ok?)
      ensures r.Err? ==> r == Err(WriteFailed(LastCode()))
      ensures r.Ok? && ErasedIn(old(erased), 32 * first, |data|) ==>
        flash[32 * first..32 * first + |data|] == data
    {
      ghost var clear := ErasedIn(erased, 32 * first, |data|);
      for i := 0 to count
        invariant pos == old(pos) + i && AllMapped(old(pos), pos)
        invariant SameOutside(old(flash), flash, 32 * first, 32 * i)
        invariant clear ==> forall n :: first + i <= n < first + count ==> n in erased
        invariant clear ==> flash[32 * first..32 * (first + i)] == data[..32 * i]
      {
        ghost var before := flash;
        var chunk := data[32 * i..32 * i + 32];
        var written := WriteBlock(first + i, chunk);
        if written != 0 {
          return Err(WriteFailed(written));
        }
        OneMoreBlock(before, flash, first, i, data);
      }
      assert data[..|data|] == data;
      return Ok(());
    }

    /** One ROM call: 4 KiB. What an erased sector reads as through the decrypting cache is arbitrary. */
    method EraseSector(sector: nat) returns (code: int)
      requires 0x1000 * sector + 0x1000 <= SPACE
      modifies this`pos, this`flash, this`erased
      ensures pos == old(pos) + 1 && code == tape(old(pos)).code
      ensures SameOutside(old(flash), flash, 0x1000 * sector, 0x1000)
      ensures code == 0 ==> ErasedIn(erased, 0x1000 * sector, 0x1000)
      ensures forall b :: b in old(erased) && !(0x1000 * sector <= 32 * b < 0x1000 * sector + 0x1000) ==> b in erased
    {
      var reply := tape(pos);
      pos := pos + 1;
      code := reply.code;
      var at := 0x1000 * sector;
      flash := flash[..at] + reply.stale[..0x1000] + flash[at + 0x1000..];
      var blocks := Blocks(128 * sector, 128);
      erased := if code == 0 then erased + blocks else erased - blocks;
    }

    method EraseUpdate(address: u32, length: nat) returns (r: Result<(), Error>)
      modifies this`pos, this`flash, this`erased
      ensures SameOutside(old(flash), flash, address, length)
      ensures r.Err? && !r.error.EraseFailed? ==> flash == old(flash)
      ensures !initialized ==> r == Err(Disabled) && pos == old(pos)
      ensures initialized && (address % 0x1000 != 0 || length % 0x1000 != 0) ==> r == Err(NotAligned) && pos == old(pos)
      ensures initialized && address % 0x1000 == 0 && length % 0x1000 == 0 ==>
        if tape(old(pos)).code == 0 && address + length > U32_MAX then r == Err(UnmappedRange)
        else
          && Ran(old(pos), 1 + length / 0x1000, r.Ok?)
          && (r.Err? ==> r == Err(if pos == old(pos) + 1 then UnlockFailed(tape(old(pos)).code)
                                  else EraseFailed(LastCode())))
      ensures r.Ok? ==> address % 0x1000 == 0 && length % 0x1000 == 0 && address + length <= U32_MAX
      ensures r.Ok? ==> ErasedIn(erased, address, length)
    {
      if !initialized {
        return Err(Disabled);
      }
      if address % 0x1000 != 0 || length % 0x1000 != 0 {
        return Err(NotAligned);
      }
      var unlocked := Unlock();
      if unlocked != 0 {
        return Err(UnlockFailed(unlocked));
      }
      if length > U32_MAX || address + length > U32_MAX {
        return Err(UnmappedRange);
      }
      var first := address / 0x1000;
      for n := 0 to length / 0x1000
        invariant pos == old(pos) + 1 + n && AllMapped(old(pos), pos)
        invariant SameOutside(old(flash), flash, address, 0x1000 * n)
        invariant ErasedIn(erased, address, 0x1000 * n)
      {
        assert 0x1000 * (first + n) == address + 0x1000 * n;
        var code := EraseSector(first + n);
        if code != 0 {
          return Err(EraseFailed(code));
        }
      }
      return Ok(());
    }

    // ---- The update backend on top ----

    method Read(slot: byte, offset: u32, length: nat) returns (r: Result<Bytes, Error>)
      modifies this`pos, this`page, this`cached
      ensures !InSlot(slot, offset, length) ==> r == Err(BadAddress) && pos == old(pos)
      ensures r.Ok? ==> InSlot(slot, offset, length) && r.value == SlotView(flash, slot)[offset..offset + length]
      ensures r.Ok? && old(page) == FIXED_PAGE ==> page == FIXED_PAGE
      ensures initialized && InSlot(slot, offset, length) && r.Err? ==> LastCode() != 0
    {
      var address := Address(slot, offset, length);
      if address.None? {
        return Err(BadAddress);
      }
      r := ReadUpdate(address.value, length);
      if r.Ok? {
        Subslice(flash, Base(slot), Base(slot) + OTA_SLOT_SIZE, offset, offset + length);
      }
    }

    method Write(slot: byte, offset: u32, data: Bytes) returns (r: Result<(), Error>)
      modifies this`pos, this`flash, this`erased
      ensures (data == [] || offset % 32 != 0 || |data| % 32 != 0 || !InSlot(slot, offset, |data|)) ==>
        r == Err(BadAddress) && flash == old(flash)
      ensures InSlot(slot, offset, |data|) ==> SameOutside(old(flash), flash, Base(slot) + offset, |data|)
      ensures r.Ok? ==> InSlot(slot, offset, |data|)
      ensures initialized && data != [] && offset % 32 == 0 && |data| % 32 == 0 && InSlot(slot, offset, |data|) ==>
        Ran(old(pos), 1 + |data| / 32, r.Ok?)
      ensures r.Ok? && ErasedIn(old(erased), Base(slot) + offset, |data|) ==>
        SlotView(flash, slot) == Splice(SlotView(old(flash), slot), offset, data)
    {
      if data == [] || offset % 32 != 0 || |data| % 32 != 0 {
        return Err(BadAddress);
      }
      var address := Address(slot, offset, |data|);
      if address.None? {
        return Err(BadAddress);
      }
      r := WriteUpdate(address.value, data);
      SlotsAreSeparate(old(flash), flash, slot, offset, |data|);
    }

    method Erase(slot: byte, offset: u32, length: u32) returns (r: Result<(), Error>)
      modifies this`pos, this`flash, this`erased
      ensures (offset % 0x1000 != 0 || length % 0x1000 != 0 || length == 0 || !InSlot(slot, offset, length)) ==>
        r == Err(BadAddress) && flash == old(flash)
      ensures InSlot(slot, offset, length) ==> SameOutside(old(flash), flash, Base(slot) + offset, length)
      ensures r.Ok? ==> InSlot(slot, offset, length) && ErasedIn(erased, Base(slot) + offset, length)
      ensures initialized && offset % 0x1000 == 0 && length % 0x1000 == 0 && length > 0 && InSlot(slot, offset, length) ==>
        Ran(old(pos), 1 + length / 0x1000, r.Ok?)
    {
      if offset % 0x1000 != 0 || length % 0x1000 != 0 || length == 0 {
        return Err(BadAddress);
      }
      var address := Address(slot, offset, length);
      if address.None? {
        return Err(BadAddress);
      }
      r := EraseUpdate(address.value, length);
    }
  }

  /**
   * Erase, write, read: when all three succeed, the reader gets back what was written anywhere in the erased range,
   * and the other slot is untouched.
   */
  method WrittenIsReadBack(w: Window, slot: byte, offset: u32, length: u32, at: u32, data: Bytes)
    returns (r: Result<Bytes, Error>)
    requires offset <= at && at + |data| <= offset + length && w.page == FIXED_PAGE
    modifies w
    ensures r.Ok? ==> r.value == data && slot < 2 && w.page == FIXED_PAGE
    ensures r.Ok? ==> SlotView(w.flash, 1 - slot) == SlotView(old(w.flash), 1 - slot)
  {
    var e := w.Erase(slot, offset, length);
    if e.Err? { return Err(e.error); }
    SlotsAreSeparate(old(w.flash), w.flash, slot, offset, length);
    ghost var erasedFlash := w.flash;
    var k := w.Write(slot, at, data);
    if k.Err? { return Err(k.error); }
    SlotsAreSeparate(erasedFlash, w.flash, slot, at, |data|);
    r := w.Read(slot, at, |data|);
  }

  /**
   * Either mapping call of a page may be the one that fails, the one that shows the page or the one that should put
   * the window back, and either may leave the window on any page.
   */
  method FailureLeavesWindow(flash: FlatFlash, failing: nat, code: int, page: PageNumber)
    returns (w: Window, r: Result<Bytes, Error>)
    requires failing < 2 && code != 0
    ensures fresh(w) && w.flash == flash && r == Err(MappingFailed(code)) && w.page == page
  {
    w := new Window((n: nat) => Reply(if n == failing then code else 0, page, Fill(PAGE, 0xff)), flash);
    assert PageCount(0, 1) == 1;
    r := w.ReadUpdate(0, 1);
    assert w.tape(0).code + w.tape(1).code == code;
  }

  // ---- The fixed mappings ----

  datatype Mapping = Mapping(virtualStart: u32, physicalStart: u32, size: u32)

  const MAPPINGS: seq<Mapping> := [
    Mapping(0x3f39_0000, 0x0, 0x2_0000), Mapping(0x3f3b_0000, 0x2_0000, 0x1_0000),
    Mapping(0x3f3c_0000, 0x20_0000, 0x1_0000), Mapping(0x3f3d_0000, 0x3e_0000, 0x2_0000)]

  function FindMapping(address: u32, length: nat, from: nat): Option<u32>
    requires from <= |MAPPINGS|
    decreases |MAPPINGS| - from
  {
    if from == |MAPPINGS| then None
    else
      var m := MAPPINGS[from];
      if address >= m.physicalStart && address + length <= m.physicalStart + m.size
      then Some(m.virtualStart + (address - m.physicalStart))
      else FindMapping(address, length, from + 1)
  }

  function MappedVirtualAddress(address: u32, length: nat): Option<u32> {
    if length > U32_MAX || address + length > U32_MAX then None else FindMapping(address, length, 0)
  }

  /** Mapped are exactly the boot area, the first page of either slot and the credential store, each within one window. */
  lemma MappedExactly(address: u32, length: nat)
    ensures MappedVirtualAddress(address, length) ==
            if address + length <= 0x2_0000 then Some(0x3f39_0000 + address)
            else if 0x2_0000 <= address && address + length <= 0x3_0000 then Some(0x3f39_0000 + address)
            else if 0x20_0000 <= address && address + length <= 0x21_0000 then Some(0x3f1c_0000 + address)
            else if 0x3e_0000 <= address && address + length <= 0x40_0000 then Some(0x3eff_0000 + address)
            else None
  {
  }

  /** Two mapped ranges share a virtual address only where they share the physical one: the mappings never alias. */
  lemma MappingsNeverAlias(a: u32, n: nat, i: nat, b: u32, m: nat, j: nat)
    requires MappedVirtualAddress(a, n).Some? && MappedVirtualAddress(b, m).Some? && i < n && j < m
    ensures MappedVirtualAddress(a, n).value + i == MappedVirtualAddress(b, m).value + j <==> a + i == b + j
  {
    var _ := Located(a, n);
    var _ := Located(b, m);
  }

  lemma Located(a: u32, n: nat) returns (k: nat)
    requires MappedVirtualAddress(a, n).Some?
    ensures k < |MAPPINGS| && MAPPINGS[k].physicalStart <= a && a + n <= MAPPINGS[k].physicalStart + MAPPINGS[k].size
    ensures MappedVirtualAddress(a, n).value == MAPPINGS[k].virtualStart + (a - MAPPINGS[k].physicalStart)
  {
    k := LocatedFrom(a, n, 0);
  }

  lemma LocatedFrom(a: u32, n: nat, from: nat) returns (k: nat)
    requires from <= |MAPPINGS| && FindMapping(a, n, from).Some?
    ensures k < |MAPPINGS| && MAPPINGS[k].physicalStart <= a && a + n <= MAPPINGS[k].physicalStart + MAPPINGS[k].size
    ensures FindMapping(a, n, from).value == MAPPINGS[k].virtualStart + (a - MAPPINGS[k].physicalStart)
    decreases |MAPPINGS| - from
  {
    var m := MAPPINGS[from];
    if a >= m.physicalStart && a + n <= m.physicalStart + m.size {
      k := from;
    } else {
      k := LocatedFrom(a, n, from + 1);
    }
  }
}
