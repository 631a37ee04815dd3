/** Unbuffered file reads: the request is widened to whole sectors, the answer is cut back
    to what the user asked for, and the pages that hold it have one owner at any time. */
module AlignedRead {

  import opened Arithmetic
  import opened Sequences

  const SECTOR: nat := 4096
  const U32: nat := 0x1_0000_0000
  const U64: nat := 0x1_0000_0000_0000_0000

  function RoundDown(value: nat, multiple: nat): nat
    requires multiple > 0
  {
    value / multiple * multiple
  }

  function RoundUp(value: nat, multiple: nat): nat
    requires multiple > 0
  {
    RoundDown(value, multiple) + if value % multiple > 0 then multiple else 0
  }

  /** RoundDown is the greatest multiple not above, RoundUp the least not below. */
  lemma {:induction false} RoundingIsTight(value: nat, multiple: nat, k: nat)
    requires multiple > 0
    ensures RoundDown(value, multiple) % multiple == 0 && RoundUp(value, multiple) % multiple == 0
    ensures RoundDown(value, multiple) <= value <= RoundUp(value, multiple)
    ensures k * multiple <= value ==> k * multiple <= RoundDown(value, multiple)
    ensures k * multiple >= value ==> k * multiple >= RoundUp(value, multiple)
  {
    var q, r := value / multiple, value % multiple;
    assert value == q * multiple + r;
    DivUnique(q * multiple, multiple, q, 0);
    assert q * multiple + multiple == (q + 1) * multiple;
    DivUnique(q * multiple + multiple, multiple, q + 1, 0);
    if k > q {
      MultipleGrows(k - q, multiple);
      assert k * multiple == q * multiple + (k - q) * multiple;
    } else if k < q {
      MultipleGrows(q - k, multiple);
      assert q * multiple == k * multiple + (q - k) * multiple;
    }
  }

  // ---------- the sector window ----------

  datatype Window = Window(offset: nat, size: nat)

  function WindowOf(offset: nat, size: nat): Window {
    var start := RoundDown(offset, SECTOR);
    Window(start, RoundUp(offset + size, SECTOR) - start)
  }

  /** The window is the smallest run of whole sectors around the request, and its length
      depends on the offset only through the distance from the sector start. */
  lemma {:induction false} WindowIsSmallest(offset: nat, size: nat, start: nat, length: nat)
    requires size > 0
    ensures var w := WindowOf(offset, size);
      && w.offset % 4096 == 0 && w.size % 4096 == 0
      && w.offset <= offset && offset + size <= w.offset + w.size
      && w.size == RoundUp(offset % 4096 + size, 4096)
      && (start % 4096 == 0 && length % 4096 == 0 && start <= offset && offset + size <= start + length
          ==> start <= w.offset && w.offset + w.size <= start + length)
  {
    WindowCovers(offset, size);
    if start % SECTOR == 0 && length % SECTOR == 0 {
      assert (start + length) % SECTOR == 0;
      RoundingIsTight(offset, SECTOR, start / SECTOR);
      RoundingIsTight(offset + size, SECTOR, (start + length) / SECTOR);
    }
  }

  lemma {:induction false} WindowCovers(offset: nat, size: nat)
    requires size > 0
    ensures var w := WindowOf(offset, size);
      && w.offset % SECTOR == 0 && w.size % SECTOR == 0
      && w.offset <= offset && offset + size <= w.offset + w.size
      && w.size == RoundUp(offset % SECTOR + size, SECTOR)
  {
    assert offset == SECTOR * (offset / SECTOR) + offset % SECTOR;
  }

  function MaxReadSizePerSingleCall(): (max: nat)
    ensures max == 0xFFFF_F000
  {
    RoundDown(U32 - 1, SECTOR)
  }

  function ToDword(x: nat): nat {
    x % U32
  }

  /** No 64-bit sum overflows for a 32-bit size; the length survives the cast to 32 bits
      exactly when it fits one call, and otherwise shrinks to less than was asked for. */
  lemma {:induction false} NarrowingIsExact(offset: nat, size: nat)
    requires offset <= MaxReadSizePerSingleCall() && 0 < size
    ensures size < U32 ==> offset + size < U64 && RoundUp(offset + size, SECTOR) + SECTOR < U64
    ensures var w := WindowOf(offset, size);
      && w.size > 0
      && (ToDword(w.size) == w.size <==> offset % SECTOR + size <= MaxReadSizePerSingleCall())
      && (ToDword(w.size) != w.size ==> ToDword(w.size) < offset % SECTOR + size)
  {}

  // ---------- aligning an address with a bit mask ----------

  function Pow2(k: nat): nat {
    if k == 0 then 1 else 2 * Pow2(k - 1)
  }

  /** Bitwise and of two numbers, bit by bit. */
  function BitAnd(a: nat, b: nat): nat {
    if a == 0 || b == 0 then 0 else 2 * BitAnd(a / 2, b / 2) + if a % 2 == 1 && b % 2 == 1 then 1 else 0
  }

  lemma {:induction false} AndAllOnes(x: nat, width: nat)
    requires x < Pow2(width)
    ensures BitAnd(x, Pow2(width) - 1) == x
  {
    if width > 0 && x > 0 {
      AndAllOnes(x / 2, width - 1);
      assert (Pow2(width) - 1) / 2 == Pow2(width - 1) - 1 && (Pow2(width) - 1) % 2 == 1;
    }
  }

  lemma {:induction false} Pow2Grows(k: nat, width: nat)
    requires k <= width
    ensures 0 < Pow2(k) <= Pow2(width)
    decreases width
  {
    if k < width {
      Pow2Grows(k, width - 1);
    } else if k > 0 {
      Pow2Grows(k - 1, width - 1);
    }
  }

  lemma {:induction false} HalfRemainder(x: nat, m: nat)
    requires m > 0
    ensures x % (2 * m) == 2 * (x / 2 % m) + x % 2
  {
    var q, r := x / 2 / m, x / 2 % m;
    assert x / 2 == q * m + r;
    assert x == q * (2 * m) + (2 * r + x % 2);
    DivUnique(x, 2 * m, q, 2 * r + x % 2);
  }

  /** Clearing the k low bits subtracts the remainder. */
  lemma {:induction false} MaskIsRoundDown(x: nat, k: nat, width: nat)
    requires k <= width && x < Pow2(width)
    ensures Pow2(k) > 0 && Pow2(k) <= Pow2(width)
    ensures BitAnd(x, Pow2(width) - Pow2(k)) == x - x % Pow2(k)
  {
    Pow2Grows(k, width);
    if k == 0 {
      AndAllOnes(x, width);
    } else {
      MaskIsRoundDown(x / 2, k - 1, width - 1);
      HalfRemainder(x, Pow2(k - 1));
      AndEven(x, Pow2(width - 1) - Pow2(k - 1));
      Halves(x, x / 2 % Pow2(k - 1), x % Pow2(k), BitAnd(x / 2, Pow2(width - 1) - Pow2(k - 1)));
    }
  }

  lemma {:induction false} Halves(x: nat, half: nat, whole: nat, high: int)
    requires high == x / 2 - half && whole == 2 * half + x % 2
    ensures 2 * high == x - whole
  {}

  lemma {:induction false} AndEven(x: nat, mask: nat)
    ensures BitAnd(x, 2 * mask) == 2 * BitAnd(x / 2, mask)
  {
    if x > 0 && mask > 0 {
      assert 2 * mask / 2 == mask && 2 * mask % 2 == 0;
    }
  }

  /** The mask form of GetAligned; the complement of `alignment - 1` in 64 bits. */
  function GetAligned(base: nat, alignment: nat): nat
    requires 0 < alignment <= U64
  {
    BitAnd(base + alignment - 1, U64 - alignment)
  }

  lemma {:induction false} U64IsPow2()
    ensures Pow2(64) == U64
  {
    assert Pow2(8) == 256;
    Pow2Sum(8, 8); Pow2Sum(16, 16); Pow2Sum(32, 32);
  }

  lemma {:induction false} Pow2Sum(a: nat, b: nat)
    ensures Pow2(a + b) == Pow2(a) * Pow2(b)
  {
    if b > 0 {
      Pow2Sum(a, b - 1);
      assert Pow2(a) * Pow2(b) == 2 * (Pow2(a) * Pow2(b - 1));
    }
  }

  lemma {:induction false} RoundUpByDivision(base: nat, m: nat)
    requires m > 0
    ensures base + m - 1 - (base + m - 1) % m == RoundUp(base, m)
  {
    var q, r := base / m, base % m;
    assert base == q * m + r;
    if r == 0 {
      DivUnique(base + m - 1, m, q, m - 1);
    } else {
      assert base + m - 1 == (q + 1) * m + (r - 1);
      DivUnique(base + m - 1, m, q + 1, r - 1);
    }
  }

  /** For every power-of-two alignment the mask form is the division form. */
  lemma {:induction false} GetAlignedIsRoundUp(base: nat, k: nat)
    requires k <= 64 && base + Pow2(k) - 1 < U64
    ensures 0 < Pow2(k) <= U64 && GetAligned(base, Pow2(k)) == RoundUp(base, Pow2(k))
    ensures GetAligned(base, Pow2(k)) % Pow2(k) == 0
  {
    U64IsPow2();
    Pow2Grows(k, 64);
    MaskIsRoundDown(base + Pow2(k) - 1, k, 64);
    RoundUpByDivision(base, Pow2(k));
    RoundingIsTight(base, Pow2(k), 0);
  }

  // ---------- memory and its owners ----------

  /** The null page address. */
  const NULL: nat := 0

  /** VirtualAlloc and VirtualFree: the live allocations and what is in them. */
  class Memory {
    var live: map<nat, seq<Byte>>

    constructor ()
      ensures live == map[]
    {
      live := map[];
    }

    /** `at` is the address the system picks. */
    method Alloc(at: nat, size: nat)
      requires at != NULL && at !in live
      modifies this
      ensures live.Keys == old(live).Keys + {at} && |live[at]| == size
      ensures live - {at} == old(live)
    {
      live := live[at := seq(size, _ => 0)];
    }

    /** Only a live allocation can be released, so none is released twice. */
    method Free(at: nat)
      requires at in live
      modifies this
      ensures live == old(live) - {at}
    {
      live := live - {at};
    }

    method Write(at: nat, offset: nat, bytes: seq<Byte>)
      requires at in live && offset + |bytes| <= |live[at]|
      modifies this
      ensures live.Keys == old(live).Keys && live - {at} == old(live) - {at}
      ensures |live[at]| == |old(live[at])| && live[at][offset..offset + |bytes|] == bytes
    {
      live := live[at := live[at][..offset] + bytes + live[at][offset + |bytes|..]];
    }
  }

  class ReadBuffer {
    var pages: nat
    var userOffset: nat
    var userSize: nat

    constructor (pages: nat, userOffset: nat, userSize: nat)
      ensures this.pages == pages && this.userOffset == userOffset && this.userSize == userSize
    {
      this.pages, this.userOffset, this.userSize := pages, userOffset, userSize;
    }

    /** The buffer owns live pages and its slice lies inside them, or it is empty. */
    ghost predicate Owns(memory: Memory)
      reads this, memory
    {
      pages == NULL || (pages in memory.live && userOffset + userSize <= |memory.live[pages]|)
    }

    ghost function Data(memory: Memory): seq<Byte>
      requires Owns(memory) && pages != NULL
      reads this, memory
    {
      memory.live[pages][userOffset..userOffset + userSize]
    }

    method Destroy(memory: Memory)
      requires Owns(memory) && NULL !in memory.live
      modifies this`pages, memory
      ensures pages == NULL && memory.live == old(memory.live) - {old(pages)}
    {
      if pages != NULL {
        memory.Free(pages);
        pages := NULL;
      }
    }

    /** Move assignment: release what is owned here, take over what the other buffer owns. */
    method MoveAssign(rhs: ReadBuffer, memory: Memory)
      requires Owns(memory) && rhs.Owns(memory) && NULL !in memory.live
      requires this != rhs && pages != NULL ==> pages != rhs.pages
      modifies this, rhs, memory
      ensures this == rhs ==> memory.live == old(memory.live) && pages == old(pages) && userOffset == old(userOffset) && userSize == old(userSize)
      ensures this != rhs ==>
        && memory.live == old(memory.live) - {old(pages)}
        && pages == old(rhs.pages) && userOffset == old(rhs.userOffset) && userSize == old(rhs.userSize)
        && rhs.pages == NULL
      ensures Owns(memory) && rhs.Owns(memory)
      ensures this != rhs && pages != NULL ==> Data(memory) == old(rhs.Data(memory))
    {
      if this != rhs {
        Destroy(memory);
        pages, rhs.pages := rhs.pages, NULL;
        userOffset, rhs.userOffset := rhs.userOffset, 0;
        userSize, rhs.userSize := rhs.userSize, 0;
      }
    }
  }

  // ---------- one read ----------

  /** Broken: an assert of the source does not hold. */
  datatype Status = Ok | Failed(code: nat) | Broken

  const ERROR_INVALID_DATA: nat := 13
  const ERROR_BAD_LENGTH: nat := 24
  const ERROR_HANDLE_EOF: nat := 38

  /** What the kernel can transfer from `offset`, asked for `asked` bytes. */
  function Available(file: seq<Byte>, offset: nat, asked: nat): (n: nat)
    ensures n <= asked && (offset <= |file| ==> offset + n <= |file|)
    ensures n < asked ==> offset + n >= |file| && (offset > |file| ==> n == 0)
  {
    if offset >= |file| then 0 else if asked <= |file| - offset then asked else |file| - offset
  }

  /** SingleReadOverlapped: it lives in the first sector of the pages it will hand over. */
  class Request {
    const userOffset: nat
    const userSize: nat
    const pages: nat
    const overlappedSize: nat

    constructor (pages: nat, overlappedSize: nat, userOffset: nat, userSize: nat)
      ensures this.pages == pages && this.overlappedSize == overlappedSize
      ensures this.userOffset == userOffset && this.userSize == userSize
    {
      this.pages, this.overlappedSize, this.userOffset, this.userSize := pages, overlappedSize, userOffset, userSize;
    }

    method InvokeReadFail(memory: Memory, code: nat) returns (status: Status, buffer: ReadBuffer)
      requires pages in memory.live
      modifies memory
      ensures status == Failed(code) && fresh(buffer) && buffer.pages == NULL
      ensures memory.live == old(memory.live) - {pages}
    {
      memory.Free(pages);
      status := Failed(code);
      buffer := new ReadBuffer(NULL, 0, 0);
    }

    /** The kernel says that it has put `transferred` bytes of the window behind the request, or reports
        `fault`; the caller says `readBytes`. */
    method InvokeReadEnd(memory: Memory, readBytes: nat, transferred: nat, fault: nat)
      returns (status: Status, buffer: ReadBuffer)
      requires pages in memory.live
      modifies memory
      ensures fresh(buffer)
      ensures status.Broken? <==> fault == 0 && readBytes != transferred
      ensures status.Ok? <==> fault == 0 && readBytes == transferred && userOffset % SECTOR + userSize <= readBytes
      ensures status.Ok? ==>
        && memory.live == old(memory.live) && buffer.pages == pages
        && buffer.userOffset == overlappedSize + userOffset % SECTOR && buffer.userSize == userSize
      ensures status.Broken? ==> memory.live == old(memory.live) && buffer.pages == NULL
      ensures status.Failed? ==> memory.live == old(memory.live) - {pages} && buffer.pages == NULL
      ensures status.Failed? ==> status == Failed(
        if fault != 0 then fault
        else if readBytes < userOffset % 4096 then 13
        else 24)
    {
      if fault != 0 {
        status, buffer := InvokeReadFail(memory, fault);
        return;
      }
      if readBytes != transferred {
        status := Broken;
        buffer := new ReadBuffer(NULL, 0, 0);
        return;
      }
      var window := WindowOf(userOffset, userSize);
      var delta := userOffset - window.offset;
      if readBytes < delta {
        status, buffer := InvokeReadFail(memory, ERROR_INVALID_DATA);
        return;
      }
      var size := if readBytes - delta <= userSize then readBytes - delta else userSize;
      if size != userSize {
        status, buffer := InvokeReadFail(memory, ERROR_BAD_LENGTH);
        return;
      }
      status := Ok;
      buffer := new ReadBuffer(pages, overlappedSize + delta, userSize);
    }
  }

  /** A synchronous read gets less than the window: the caller then goes by the length it asked for. */
  predicate ShortAtOnce(file: seq<Byte>, offset: nat, size: nat, fault: nat, synchronous: bool) {
    var w := WindowOf(offset, size);
    synchronous && fault == 0 && Available(file, w.offset, ToDword(w.size)) != ToDword(w.size)
  }

  /** A whole read. `at` is where the pages land, `header` the size of the request object, `fault` an
      error of the device, and `synchronous` whether ReadFile finishes at once. */
  method Read(memory: Memory, file: seq<Byte>, offset: nat, size: nat, at: nat, header: nat, fault: nat, synchronous: bool)
    returns (status: Status, buffer: ReadBuffer)
    requires offset <= MaxReadSizePerSingleCall() && 0 < size && offset + size <= U64 - SECTOR
    requires at != NULL && at !in memory.live
    modifies memory
    ensures fresh(buffer)
    ensures status.Broken? <==> ShortAtOnce(file, offset, size, fault, synchronous)
    ensures status.Ok? <==>
      && fault == 0 && offset + size <= |file| && offset % SECTOR + size <= MaxReadSizePerSingleCall()
      && !ShortAtOnce(file, offset, size, fault, synchronous)
    ensures status.Ok? ==>
      && memory.live.Keys == old(memory.live).Keys + {at} && memory.live - {at} == old(memory.live)
      && buffer.pages == at && buffer.Owns(memory) && buffer.Data(memory) == file[offset..offset + size]
    ensures status.Failed? ==> memory.live == old(memory.live)
    // The error told: the device's, else end of file, else invalid data or bad length by what arrived.
    ensures fault != 0 ==> status == Failed(fault)
    ensures fault == 0 && status.Failed? ==>
      var w := WindowOf(offset, size);
      var arrived := Available(file, w.offset, w.size % 0x1_0000_0000);
      status == Failed(
        if !synchronous && |file| <= offset - offset % 4096 && w.size % 0x1_0000_0000 != 0 then 38
        else if arrived < offset % 4096 then 13
        else 24)
    ensures !status.Ok? ==> buffer.pages == NULL
  {
    NarrowingIsExact(offset, size);
    WindowIsSmallest(offset, size, 0, 0);
    var overlappedSize := RoundUp(header, SECTOR);
    var window := WindowOf(offset, size);
    memory.Alloc(at, window.size + overlappedSize);
    var request := new Request(at, overlappedSize, offset, size);
    var asked := ToDword(window.size);
    if fault != 0 {
      status, buffer := request.InvokeReadFail(memory, fault);
      return;
    }
    var n := Available(file, window.offset, asked);
    if n > 0 {
      memory.Write(at, overlappedSize, file[window.offset..window.offset + n]);
    }
    var read := if synchronous then asked else n;
    var error := if !synchronous && asked > 0 && window.offset >= |file| then ERROR_HANDLE_EOF else 0;
    status, buffer := request.InvokeReadEnd(memory, read, n, error);
    if status.Ok? {
      SliceOfWindow(memory.live[at], overlappedSize, file, window.offset, n, offset, size);
    }
  }

  lemma {:induction false} SliceOfWindow(pages: seq<Byte>, header: nat, file: seq<Byte>, start: nat, n: nat, offset: nat, size: nat)
    requires header + n <= |pages| && start + n <= |file| && pages[header..header + n] == file[start..start + n]
    requires start <= offset && offset + size <= start + n
    ensures pages[header + (offset - start)..header + (offset - start) + size] == file[offset..offset + size]
  {
    var d := offset - start;
    SliceOfSlice(pages, header, header + n, d, d + size);
    SliceOfSlice(file, start, start + n, d, d + size);
    assert header + (offset - start) == header + d && start + d == offset;
  }
}
