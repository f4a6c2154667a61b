/**
  The ARM bootloader: the on-chip flash driver, the receiver that fills a RAM buffer from
  the serial port, the CRC check, and the page-by-page copy into flash.
*/
module Flash {
  import opened Words

  const PAGE_SIZE := 256
  const PAGE_WORDS := 64
  const NUM_PAGES := 1024
  const FLASH_SIZE := 0x40000

  datatype Status = Ready | ProgrammingError | LockError

  class FlashDevice {
    // The flash array, and the page buffer that writes into the flash window fill.
    const cells: array<bv8>
    const latch: array<bv8>
    // The pages whose lock bit makes programming fail, and those that it fails for otherwise.
    const locked: set<nat>
    const faulty: set<nat>
    // Every page programming that took place, in order.
    ghost var programmed: seq<nat>

    ghost predicate Valid()
      reads this
    {
      cells.Length == FLASH_SIZE && latch.Length == PAGE_SIZE && cells != latch
    }

    predicate Refuses(page: nat) {
      page in locked || page in faulty
    }

    constructor (locked: set<nat>, faulty: set<nat>)
      ensures Valid() && fresh(cells) && fresh(latch)
      ensures this.locked == locked && this.faulty == faulty && programmed == []
    {
      cells := new bv8[FLASH_SIZE];
      latch := new bv8[PAGE_SIZE](_ => 0xFF);
      this.locked, this.faulty := locked, faulty;
      programmed := [];
    }

    // Word copy into the flash window, which fills the page buffer; dst is a byte offset into
    // flash, len counts words.
    method WriteData(dst: int, src: array<bv8>, from: nat, len: nat) returns (ok: bool)
      requires Valid() && src != latch && src != cells
      requires dst % 4 == 0
      requires from + 4 * len <= src.Length
      modifies latch
      ensures ok <==> 1 <= len <= PAGE_WORDS && 0 <= dst && dst + 4 * len <= FLASH_SIZE
      ensures ok ==> forall c | 0 <= c < PAGE_SIZE ::
                latch[c] == if Offset(dst, c) < 4 * len then src[from + Offset(dst, c)] else old(latch[c])
      ensures !ok ==> latch[..] == old(latch[..])
    {
      if len < 1 || len > PAGE_WORDS {
        return false;
      }
      if dst < 0 || dst + 4 * len > FLASH_SIZE {
        return false;
      }
      var i := 0;
      while i < len
        invariant 0 <= i <= len
        invariant forall c | 0 <= c < PAGE_SIZE ::
                    latch[c] == if Offset(dst, c) < 4 * i then src[from + Offset(dst, c)] else old(latch[c])
      {
        forall c | 0 <= c < PAGE_SIZE {
          OffsetInWord(dst, c, i);
        }
        hide Offset;
        var d, s := (dst + 4 * i) % PAGE_SIZE, from + 4 * i;
        latch[d], latch[d + 1], latch[d + 2], latch[d + 3] := src[s], src[s + 1], src[s + 2], src[s + 3];
        i := i + 1;
      }
      return true;
    }

    // How far cell c of the page buffer lies behind the one that dst writes into.
    static function Offset(dst: int, c: nat): nat {
      (c - dst) % PAGE_SIZE
    }

    static lemma OffsetInWord(dst: int, c: nat, i: nat)
      requires dst % 4 == 0 && c < PAGE_SIZE && i < PAGE_WORDS
      ensures var d := (dst + 4 * i) % PAGE_SIZE;
              && d + 4 <= PAGE_SIZE
              && (4 * i <= Offset(dst, c) < 4 * i + 4 <==> d <= c < d + 4)
              && (d <= c < d + 4 ==> Offset(dst, c) == 4 * i + c - d)
    {
      var page, b := dst / PAGE_SIZE, dst % PAGE_SIZE;
      Remainder(b, dst / 4 - 64 * page, 0, 4);
      if b + 4 * i < PAGE_SIZE {
        Remainder(dst + 4 * i, page, b + 4 * i, PAGE_SIZE);
      } else {
        Remainder(dst + 4 * i, page + 1, b + 4 * i - PAGE_SIZE, PAGE_SIZE);
      }
      if c >= b {
        Remainder(c - dst, -page, c - b, PAGE_SIZE);
      } else {
        Remainder(c - dst, -page - 1, c - b + PAGE_SIZE, PAGE_SIZE);
      }
    }

    // Programs the page buffer into one page; the buffer then reads as erased.
    method EraseWritePage(page: nat) returns (status: Status)
      requires Valid()
      modifies this`programmed, cells, latch
      ensures Valid()
      ensures status == Ready <==> page < NUM_PAGES && !Refuses(page)
      ensures status == Ready ==>
                && programmed == old(programmed) + [page]
                && cells[..] == old(cells[..])[..page * PAGE_SIZE] + old(latch[..])
                                + old(cells[..])[(page + 1) * PAGE_SIZE..]
      ensures status != Ready ==>
                programmed == old(programmed) && cells[..] == old(cells[..]) && latch[..] == old(latch[..])
    {
      if page >= NUM_PAGES {
        return ProgrammingError;
      }
      if page in locked {
        return LockError;
      }
      if page in faulty {
        return ProgrammingError;
      }
      var base := page * PAGE_SIZE;
      forall k | 0 <= k < PAGE_SIZE {
        cells[base + k] := latch[k];
      }
      forall k | 0 <= k < PAGE_SIZE {
        latch[k] := 0xFF;
      }
      programmed := programmed + [page];
      assert cells[..] == old(cells[..])[..base] + old(latch[..]) + old(cells[..])[base + PAGE_SIZE..];
      return Ready;
    }
  }
}

module Boot {
  import opened Crc
  import opened Flash

  const MAX_CODE_SIZE := 0xA000
  const RECEIVE_TIMEOUT := 100
  const WORD_RANGE := 0x1_0000_0000

  // The copy ends in a reset, or hangs at the first page that cannot be programmed.
  datatype Outcome = NoImage | Reset | Hung(page: nat)

  // The CRC of the first len bytes of a buffer.
  method GetCrc(data: array<bv8>, len: nat) returns (reg: bv16)
    requires len <= data.Length
    ensures reg == TableCrc(0, data[..len])
  {
    reg := 0;
    var i := 0;
    while i < len
      invariant 0 <= i <= len
      invariant reg == TableCrc(0, data[..i])
    {
      hide TableCrc, TableStep;
      TableCrcNext(0, data[..i], data[i]);
      assert data[..i + 1] == data[..i] + [data[i]];
      reg := TableStep(reg, data[i]);
      i := i + 1;
    }
  }

  class Bootloader {
    const data: array<bv8>
    var head: nat
    var size: nat
    var receiving: bool
    var timeoutCounter: nat
    var crcWasGood: bool
    var errorSet: bool
    // Every byte taken from the serial port since reception began.
    ghost var received: Bytes

    // The bytes taken since the 32-bit counter last read zero.
    ghost function Lap(): Bytes
      reads this
      requires head <= |received|
    {
      received[|received| - head..]
    }

    // The buffer holds the latest lap, as far as it fits the announced size.
    ghost predicate Buffered()
      reads this, data
    {
      && data.Length == MAX_CODE_SIZE
      && size <= MAX_CODE_SIZE
      && head <= |received|
      && head == Counter(|received|)
      && (forall i | 0 <= i < head && i < size :: data[i] == Lap()[i])
    }

    ghost predicate Valid()
      reads this, data
    {
      && Buffered()
      && (size == 0 || 2 < size <= MAX_CODE_SIZE)
      && (receiving ==> size > 0 && !crcWasGood && timeoutCounter < RECEIVE_TIMEOUT)
      && (crcWasGood ==> size > 0 && head == size && Accepts(Lap()))
    }

    constructor ()
      ensures Valid() && fresh(data) && !receiving && !crcWasGood && received == []
    {
      data := new bv8[MAX_CODE_SIZE];
      head, size, timeoutCounter, received := 0, 0, 0, [];
      receiving, crcWasGood, errorSet := false, false, false;
    }

    method BeginReceive(dataSize: nat)
      requires Valid()
      requires 0 < dataSize && dataSize + 2 <= MAX_CODE_SIZE
      modifies this
      ensures Valid() && receiving && !crcWasGood
      ensures size == dataSize + 2 && received == [] && timeoutCounter == 0
      ensures errorSet == old(errorSet)
    {
      receiving := true;
      head := 0;
      size := dataSize + 2;
      timeoutCounter := 0;
      crcWasGood := false;
      received := [];
    }

    method EndReceive()
      modifies this`receiving
      ensures !receiving
    {
      receiving := false;
    }

    method Verify()
      requires Buffered() && 2 < size == head
      modifies this`crcWasGood
      ensures crcWasGood <==> Accepts(Lap())
    {
      hide TableCrc;
      var myCrc := GetCrc(data, size - 2);
      var fileCrc := (data[size - 2] as bv16) << 8;
      fileCrc := fileCrc + (data[size - 1] as bv16);
      assert data[..size] == Lap();
      assert data[..size - 2] == Lap()[..size - 2];
      assert fileCrc == Trailer(Lap());
      if myCrc == fileCrc {
        crcWasGood := true;
      } else {
        crcWasGood := false;
      }
    }

    // One character: stored, or counted as excess.
    method Store(val: bv8)
      requires Valid() && receiving
      modifies this`head, this`errorSet, this`received, data
      ensures Valid()
      ensures received == old(received) + [val]
      ensures errorSet == (old(errorSet) || old(head) >= size)
    {
      hide Accepts, Trailer, TableCrc, Counter;
      ghost var lap := Lap();
      CounterStep(|received|);
      if head >= size || head == MAX_CODE_SIZE {
        errorSet := true;
        head := (head + 1) % WORD_RANGE;
      } else {
        data[head] := val;
        head := (head + 1) % WORD_RANGE;
      }
      received := received + [val];
      if head > 0 {
        assert Lap() == lap + [val];
      }
    }

    // The periodic event; available holds what the serial port has buffered.
    method Event(available: Bytes) returns (taken: nat)
      requires Valid()
      modifies this, data
      ensures Valid() && size == old(size)
      ensures taken <= |available| && received == old(received) + available[..taken]
      ensures !old(receiving) ==>
                taken == 0 && !receiving && crcWasGood == old(crcWasGood) && errorSet == old(errorSet)
      // The only way to a good CRC: silence for the whole timeout, exactly the announced
      // number of bytes on the counter, and a frame that divides evenly.
      ensures old(receiving) && old(timeoutCounter) + 1 >= RECEIVE_TIMEOUT ==>
                && taken == 0 && !receiving
                && (crcWasGood <==> Counter(|received|) == size && Accepts(received[|received| - size..]))
                && (errorSet <==> old(errorSet) || Counter(|received|) < size)
      ensures old(receiving) && old(timeoutCounter) + 1 < RECEIVE_TIMEOUT ==>
                && taken == |available| && receiving && !crcWasGood
                && timeoutCounter == (if available == [] then old(timeoutCounter) + 1 else 0)
                && (errorSet <==> old(errorSet) || Excess(old(|received|), taken, size))
    {
      hide Accepts, Trailer, TableCrc, Counter;
      taken := 0;
      if !receiving {
        return;
      }
      timeoutCounter := timeoutCounter + 1;
      if timeoutCounter >= RECEIVE_TIMEOUT {
        if head == size {
          Verify();
        } else if head > size {
        } else {
          errorSet := true;
        }
        EndReceive();
        return;
      }
      if available == [] {
        return;
      }
      timeoutCounter := 0;
      while taken < |available|
        invariant Valid() && receiving && size == old(size) && timeoutCounter == 0
        invariant 0 <= taken <= |available|
        invariant received == old(received) + available[..taken]
        invariant errorSet <==> old(errorSet) || Excess(old(|received|), taken, size)
      {
        Store(available[taken]);
        taken := taken + 1;
      }
    }

    // Copies the image to flash, a page at a time, then resets.
    method Core(flash: FlashDevice) returns (outcome: Outcome)
      requires Valid() && flash.Valid()
      requires data != flash.cells && data != flash.latch
      modifies this`size, flash`programmed, flash.cells, flash.latch
      ensures flash.Valid()
      ensures outcome == NoImage <==> !old(crcWasGood)
      ensures outcome == NoImage ==>
                flash.cells[..] == old(flash.cells[..]) && flash.programmed == old(flash.programmed)
      ensures outcome == Reset ==>
                var n := old(size) - 2;
                && (forall p | 0 <= p <= n / PAGE_SIZE :: !flash.Refuses(p))
                && flash.programmed == old(flash.programmed) + PagesFromZero(n / PAGE_SIZE + 1)
                && Flashed(flash.cells[..], old(flash.cells[..]), data[..], WordAligned(n), n / PAGE_SIZE + 1)
      ensures outcome.Hung? ==>
                var p := outcome.page;
                && p <= (old(size) - 2) / PAGE_SIZE
                && flash.Refuses(p) && (forall q | 0 <= q < p :: !flash.Refuses(q))
                && flash.programmed == old(flash.programmed) + PagesFromZero(p)
                && Flashed(flash.cells[..], old(flash.cells[..]), data[..], p * PAGE_SIZE, p)
    {
      hide Accepts, Trailer, TableCrc, Flashed;
      if !crcWasGood {
        return NoImage;
      }
      size := size - 2;
      var numPages := size / PAGE_SIZE;
      var tail := size % PAGE_SIZE;
      tail := tail + (4 - tail % 4);
      TailIsWholeWords(size);
      ghost var before := flash.cells[..];
      var i, failed := CopyFullPages(flash, numPages);
      if !failed && tail > 0 {
        failed := CopyPage(flash, i, tail, before);
      }
      if !failed {
        return Reset;
      } else {
        return Hung(i);
      }
    }

    method CopyFullPages(flash: FlashDevice, numPages: nat) returns (i: nat, failed: bool)
      requires flash.Valid() && data != flash.cells && data != flash.latch
      requires numPages * PAGE_SIZE <= data.Length == MAX_CODE_SIZE
      modifies flash`programmed, flash.cells, flash.latch
      ensures flash.Valid()
      ensures i <= numPages && (failed <==> i < numPages)
      ensures failed ==> flash.Refuses(i)
      ensures forall q | 0 <= q < i :: !flash.Refuses(q)
      ensures flash.programmed == old(flash.programmed) + PagesFromZero(i)
      ensures Flashed(flash.cells[..], old(flash.cells[..]), data[..], i * PAGE_SIZE, i)
    {
      failed := false;
      i := 0;
      ghost var before := flash.cells[..];
      while i < numPages
        invariant flash.Valid() && 0 <= i <= numPages
        invariant !failed
        invariant flash.programmed == old(flash.programmed) + PagesFromZero(i)
        invariant Flashed(flash.cells[..], before, data[..], i * PAGE_SIZE, i)
        invariant forall q | 0 <= q < i :: !flash.Refuses(q)
      {
        failed := CopyPage(flash, i, PAGE_SIZE, before);
        if failed {
          break;
        }
        i := i + 1;
      }
    }

    // The body of the page loop, shared with the tail: load the page buffer, program it.
    method CopyPage(flash: FlashDevice, page: nat, count: nat, ghost before: Bytes) returns (failed: bool)
      requires flash.Valid() && data != flash.cells && data != flash.latch
      requires 4 <= count <= PAGE_SIZE && count % 4 == 0
      requires page * PAGE_SIZE + count <= data.Length == MAX_CODE_SIZE
      requires Flashed(flash.cells[..], before, data[..], page * PAGE_SIZE, page)
      modifies flash`programmed, flash.cells, flash.latch
      ensures flash.Valid()
      ensures failed <==> flash.Refuses(page)
      ensures failed ==> flash.cells[..] == old(flash.cells[..]) && flash.programmed == old(flash.programmed)
      ensures !failed ==> flash.programmed == old(flash.programmed) + [page]
      ensures !failed ==> Flashed(flash.cells[..], before, data[..], page * PAGE_SIZE + count, page + 1)
    {
      failed := false;
      var ok := flash.WriteData(page * PAGE_SIZE, data, page * PAGE_SIZE, count / 4);
      if !ok {
        failed := true;
      }
      ghost var cells, loaded := flash.cells[..], flash.latch[..];
      var status := flash.EraseWritePage(page);
      if status != Ready {
        failed := true;
      }
      if !failed {
        forall c | 0 <= c < PAGE_SIZE ensures FlashDevice.Offset(page * PAGE_SIZE, c) == c {
        }
        PageAdvances(cells, before, data[..], loaded, page, count);
      }
    }
  }

  // Programming one more page extends the flashed part of the image.
  lemma PageAdvances(cells: Bytes, before: Bytes, image: Bytes, loaded: Bytes, page: nat, count: nat)
    requires |cells| == FLASH_SIZE && |loaded| == PAGE_SIZE && count <= PAGE_SIZE
    requires page < NUM_PAGES && page * PAGE_SIZE + count <= |image| <= FLASH_SIZE
    requires Flashed(cells, before, image, page * PAGE_SIZE, page)
    requires loaded[..count] == image[page * PAGE_SIZE..page * PAGE_SIZE + count]
    ensures Flashed(cells[..page * PAGE_SIZE] + loaded + cells[(page + 1) * PAGE_SIZE..],
                    before, image, page * PAGE_SIZE + count, page + 1)
  {
    var base := page * PAGE_SIZE;
    var after := cells[..base] + loaded + cells[base + PAGE_SIZE..];
    assert after[..base + count] == cells[..base] + loaded[..count];
    assert image[..base + count] == image[..base] + image[base..base + count];
    assert cells[base + PAGE_SIZE..] == cells[base..][PAGE_SIZE..];
    assert before[base + PAGE_SIZE..] == before[base..][PAGE_SIZE..];
  }

  function PagesFromZero(n: nat): seq<nat> {
    seq(n, i => i)
  }

  // The image ends on a word boundary, and a whole word is added when it already does.
  function WordAligned(n: nat): nat {
    n + 4 - n % 4
  }

  // The tail length passes the driver's check for every image the receiver can hold, and the
  // words it names lie inside the receive buffer.
  lemma TailIsWholeWords(n: nat)
    requires n + 2 <= MAX_CODE_SIZE
    ensures var tail := n % PAGE_SIZE + (4 - n % PAGE_SIZE % 4);
            && 1 <= tail / 4 <= PAGE_WORDS && tail % 4 == 0
            && n / PAGE_SIZE * PAGE_SIZE + tail == WordAligned(n) <= MAX_CODE_SIZE
  {
    assert n % PAGE_SIZE % 4 == n % 4 by {
      assert n == n / PAGE_SIZE * PAGE_SIZE + n % PAGE_SIZE;
    }
  }

  // Flash starts with the first upto bytes of the image; after so many pages it is as before.
  ghost predicate Flashed(cells: Bytes, before: Bytes, image: Bytes, upto: nat, pages: nat) {
    && |cells| == |before| && upto <= |cells| && upto <= |image| && pages * PAGE_SIZE <= |cells|
    && cells[..upto] == image[..upto]
    && cells[pages * PAGE_SIZE..] == before[pages * PAGE_SIZE..]
  }

  // Of so many bytes more after n, one finds the counter at the announced size or above.
  predicate Excess(n: nat, more: nat, size: nat) {
    exists k | n <= k < n + more :: Counter(k) >= size
  }

  // The value of the 32-bit byte counter after n bytes.
  function Counter(n: nat): nat {
    n % WORD_RANGE
  }

  lemma CounterStep(n: nat)
    ensures Counter(n) <= n
    ensures (Counter(n) + 1) % WORD_RANGE == Counter(n + 1)
    ensures Counter(n + 1) == 0 || Counter(n + 1) == Counter(n) + 1
  {
  }
}
