/**
  The serial receive ring: the DMA controller deposits bytes, a character reader and a line
  reader take them, each with its own pointer into the same buffer.
*/
module SerialRing {
  import opened Words

  const SIZE := 1024
  const CR: uint8 := 13

  /* The reference: the unread bytes in order of arrival. */

  // Position of the first carriage return, or the length when there is none.
  function LineEnd(q: seq<uint8>): (k: nat)
    ensures k <= |q|
    ensures forall i | 0 <= i < k :: q[i] != CR
    ensures k < |q| ==> q[k] == CR
  {
    if q == [] then 0 else if q[0] == CR then 0 else 1 + LineEnd(q[1..])
  }

  datatype ReadResult = NoLine | Line(text: seq<uint8>)

  // A line that fits is taken with its end; the start of one that does not is lost.
  function ReadLine(q: seq<uint8>, maxSize: nat): (ReadResult, seq<uint8>) {
    var k := LineEnd(q);
    if maxSize == 0 || k == |q| then (NoLine, q)
    else if k <= maxSize - 1 then (Line(q[..k]), q[k + 1..])
    else (NoLine, q[maxSize - 1..])
  }

  predicate NoLineEndIn(q: seq<uint8>, n: nat)
    requires n <= |q|
  {
    forall i | 0 <= i < n :: q[i] != CR
  }

  class Ring {
    const buf: array<uint8>
    // The next byte to read, the next byte to look for a line end at, and the DMA pointer.
    var head: nat
    var scan: nat
    var dma: nat
    ghost var deposited: seq<uint8>
    ghost var consumed: seq<uint8>

    ghost predicate InBounds()
      reads this
    {
      buf.Length == SIZE && head < SIZE && scan < SIZE && dma < SIZE
    }

    // The cells from one pointer up to another, around the end of the buffer.
    ghost function Region(from: nat, to: nat): (cells: seq<uint8>)
      requires buf.Length == SIZE && from < SIZE && to < SIZE
      reads buf
      ensures |cells| == Distance(from, to)
    {
      if from <= to then buf[from..to] else buf[from..] + buf[..to]
    }

    ghost function Unread(): seq<uint8>
      requires InBounds()
      reads this, buf
    {
      Region(head, dma)
    }

    static function Distance(from: nat, to: nat): nat
      requires from < SIZE && to < SIZE
    {
      if from <= to then to - from else SIZE - from + to
    }

    static function Next(i: nat): nat
      requires i < SIZE
    {
      if i + 1 >= SIZE then 0 else i + 1
    }

    ghost predicate Valid()
      reads this, buf
    {
      && InBounds()
      && Distance(head, scan) <= Distance(head, dma)
      && NoLineEndIn(Unread(), Distance(head, scan))
      && deposited == consumed + Unread()
    }

    constructor ()
      ensures Valid() && fresh(buf) && Unread() == [] && deposited == []
    {
      buf := new uint8[SIZE](_ => 0);
      head, scan, dma, deposited, consumed := 0, 0, 0, [], [];
    }

    // One byte arrives; the hardware wraps the pointer.
    method Deposit(b: uint8)
      requires Valid() && |Unread()| < SIZE - 1
      modifies this`dma, this`deposited, buf
      ensures Valid() && Unread() == old(Unread()) + [b]
      ensures deposited == old(deposited) + [b] && dma == Next(old(dma))
    {
      buf[dma] := b;
      dma := Next(dma);
      deposited := deposited + [b];
      assert Unread() == old(Unread()) + [b];
      assert consumed + (old(Unread()) + [b]) == (consumed + old(Unread())) + [b];
    }

    // The next byte, or -1.
    method GetChar() returns (c: int)
      requires Valid()
      modifies this`head, this`scan, this`consumed
      ensures Valid() && deposited == old(deposited)
      ensures old(Unread()) == [] ==> c == -1 && Unread() == []
      ensures old(Unread()) != [] ==> c == old(Unread())[0] && Unread() == old(Unread())[1..]
    {
      ghost var q := Unread();
      if head == dma {
        return -1;
      }
      assert q != [];
      hide Region;
      if scan == head {
        scan := scan + 1;
      }
      if scan >= SIZE {
        scan := 0;
      }
      c := PopHead();
      Regroup(old(consumed), q, 1);
      assert q[..1] == [q[0]];
    }

    lemma RegionStep(from: nat, to: nat)
      requires buf.Length == SIZE && from < SIZE && to < SIZE && from != to
      ensures Region(from, to) == [buf[from]] + Region(Next(from), to)
    {
    }

    // Takes the byte at head and moves on, around the end if need be.
    method PopHead() returns (c: uint8)
      requires InBounds() && head != dma
      modifies this`head, this`consumed
      ensures InBounds() && head == Next(old(head))
      ensures c == old(Unread())[0] && Unread() == old(Unread())[1..]
      ensures consumed == old(consumed) + [c]
    {
      RegionStep(head, dma);
      c := buf[head];
      head := head + 1;
      if head >= SIZE {
        head := 0;
      }
      consumed := consumed + [c];
    }

    // The driver's character count: exact, except one too many when the region wraps.
    method GetNumChars() returns (n: int)
      requires Valid()
      ensures n == |Unread()| + if dma < head then 1 else 0
    {
      n := 0;
      var loc := head;
      while loc != dma
        invariant if head <= dma then head <= loc <= dma && n == loc - head
                  else (head <= loc <= SIZE && n == loc - head) || (loc <= dma && n == SIZE - head + loc + 1)
        decreases if loc <= dma then dma - loc else SIZE + dma + 1 - loc
      {
        loc := loc + 1;
        if loc > SIZE {
          loc := 0;
        }
        n := n + 1;
        if n > SIZE {
          return -1;
        }
      }
    }

    lemma Wraps()
      requires Valid()
      ensures dma < head <==> dma < |Unread()|
    {
    }

    // Reads a line into readTo, terminated by zero; the count, or -1.
    method ReadLineInto(readTo: array<uint8>, maxSize: nat) returns (count: int)
      requires Valid() && maxSize <= readTo.Length && readTo != buf
      modifies this`head, this`scan, this`consumed, readTo
      ensures Valid() && deposited == old(deposited)
      ensures var (r, rest) := ReadLine(old(Unread()), maxSize);
              && Unread() == rest
              && (r == NoLine <==> count == -1)
              && (r.Line? ==> count == |r.text| < maxSize && readTo[..count] == r.text && readTo[count] == 0)
    {
      if maxSize == 0 {
        return -1;
      }
      if dma == head {
        return -1;
      }
      var found := FindLineEnd();
      if !found {
        return -1;
      }
      count := TakeLine(readTo, maxSize);
    }

    method FindLineEnd() returns (found: bool)
      requires Valid()
      modifies this`scan
      ensures Valid() && Unread() == old(Unread())
      ensures found <==> LineEnd(Unread()) < |Unread()|
      ensures found ==> Distance(head, scan) == LineEnd(Unread())
    {
      var size := 0;
      ghost var q, first := Unread(), Distance(head, scan);
      while true
        invariant Valid() && Unread() == q && Distance(head, scan) == first + size
        decreases Distance(head, dma) - Distance(head, scan)
      {
        if scan == dma {
          NoLineEnd(q, Distance(head, scan));
          return false;
        } else if buf[scan] == CR {
          assert buf[scan] == q[Distance(head, scan)];
          FirstLineEnd(q, Distance(head, scan));
          return true;
        }
        assert buf[scan] == q[Distance(head, scan)];
        scan := scan + 1;
        if scan >= SIZE {
          scan := 0;
        }
        size := size + 1;
        if size > SIZE {
          assert false;
          return false;
        }
      }
    }
  
    // Copies up to the line end found by the scan, and steps both pointers over it.
    method TakeLine(readTo: array<uint8>, maxSize: nat) returns (count: int)
      requires Valid() && 0 < maxSize <= readTo.Length && readTo != buf
      requires Distance(head, scan) == LineEnd(Unread()) < |Unread()|
      modifies this`head, this`scan, this`consumed, readTo
      ensures Valid() && deposited == old(deposited)
      ensures var k := LineEnd(old(Unread()));
              if k <= maxSize - 1 then
                && count == k && Unread() == old(Unread())[k + 1..]
                && readTo[..k] == old(Unread())[..k] && readTo[k] == 0
              else count == -1 && Unread() == old(Unread())[maxSize - 1..]
    {
      hide Region, LineEnd, Distance, NoLineEndIn;
      ghost var q, taken := Unread(), consumed;
      var size := CopyText(readTo, maxSize);
      if head != scan {
        TextGone(taken, q, size);
        return -1;
      }
      SkipLineEnd(readTo, size);
      LineGone(taken, q, size);
      return size;
    }

    lemma TextGone(taken: seq<uint8>, q: seq<uint8>, size: nat)
      requires InBounds() && deposited == taken + q && size <= LineEnd(q)
      requires consumed == taken + q[..size] && Unread() == q[size..]
      requires Distance(head, scan) == LineEnd(q) - size
      ensures Valid()
    {
      Regroup(taken, q, size);
    }

    lemma LineGone(taken: seq<uint8>, q: seq<uint8>, k: nat)
      requires InBounds() && deposited == taken + q && k < |q|
      requires consumed == taken + q[..k] + [q[k]] && Unread() == q[k + 1..]
      requires head == scan
      ensures Valid()
    {
      OneMore(taken, q, k);
    }

    // Terminates the text and steps both pointers over the line end.
    method SkipLineEnd(readTo: array<uint8>, size: nat)
      requires InBounds() && head == scan && Unread() != []
      requires size < readTo.Length && readTo != buf
      modifies this`head, this`scan, this`consumed, readTo
      ensures InBounds() && head == scan
      ensures Unread() == old(Unread())[1..] && consumed == old(consumed) + [old(Unread())[0]]
      ensures readTo[..size] == old(readTo[..size]) && readTo[size] == 0
    {
      readTo[size] := 0;
      scan := scan + 1;
      if scan >= SIZE {
        scan := 0;
      }
      var end := PopHead();
    }

    // The copying loop: up to the line end, or as much as fits.
    method CopyText(readTo: array<uint8>, maxSize: nat) returns (size: nat)
      requires InBounds() && 0 < maxSize <= readTo.Length && readTo != buf
      requires Distance(head, scan) <= |Unread()|
      modifies this`head, this`consumed, readTo
      ensures InBounds()
      ensures var k := Distance(old(head), scan);
              size == (if k <= maxSize - 1 then k else maxSize - 1) && Distance(head, scan) == k - size
      ensures head == scan <==> Distance(head, scan) == 0
      ensures Unread() == old(Unread())[size..] && readTo[..size] == old(Unread())[..size]
      ensures consumed == old(consumed) + old(Unread())[..size]
    {
      hide Region;
      ghost var q, k := Unread(), Distance(head, scan);
      size := 0;
      while head != scan
        invariant InBounds() && size <= k && size <= maxSize - 1
        invariant Unread() == q[size..] && Distance(head, scan) == k - size
        invariant consumed == old(consumed) + q[..size]
        invariant readTo[..size] == q[..size]
        decreases k - size
      {
        if size >= maxSize - 1 {
          return;
        }
        var c := PopHead();
        readTo[size] := c;
        size := size + 1;
        assert q[..size] == q[..size - 1] + [q[size - 1]];
      }
    }
  }

  lemma OneMore(taken: seq<uint8>, q: seq<uint8>, k: nat)
    requires k < |q|
    ensures q[k..][0] == q[k] && q[k..][1..] == q[k + 1..]
    ensures taken + q == ((taken + q[..k]) + [q[k]]) + q[k + 1..]
  {
    assert q == q[..k] + ([q[k]] + q[k + 1..]);
  }

  lemma Regroup(taken: seq<uint8>, q: seq<uint8>, k: nat)
    requires k <= |q|
    ensures taken + q == (taken + q[..k]) + q[k..]
  {
    assert q == q[..k] + q[k..];
  }

  lemma {:induction false} FirstLineEnd(q: seq<uint8>, k: nat)
    requires k < |q| && q[k] == CR && NoLineEndIn(q, k)
    ensures LineEnd(q) == k
  {
    if LineEnd(q) < k {
      assert q[LineEnd(q)] == CR;
    }
  }

  lemma {:induction false} NoLineEnd(q: seq<uint8>, k: nat)
    requires k == |q| && NoLineEndIn(q, k)
    ensures LineEnd(q) == |q|
  {
  }

  // A line is returned exactly when a carriage return follows at most maxSize - 1 bytes.
  lemma ReturnsLineIff(q: seq<uint8>, maxSize: nat)
    ensures ReadLine(q, maxSize).0.Line?
       <==> exists k :: 0 <= k < |q| && k < maxSize && q[k] == CR
    ensures ReadLine(q, maxSize).0.Line? ==>
              var text, rest := ReadLine(q, maxSize).0.text, ReadLine(q, maxSize).1;
              CR !in text && q == text + [CR] + rest
    ensures ReadLine(q, maxSize).0 == NoLine ==>
              ReadLine(q, maxSize).1 == if maxSize > 0 && CR in q then q[maxSize - 1..] else q
  {
    var k := LineEnd(q);
    if ReadLine(q, maxSize).0.Line? {
      assert q[k] == CR;
      assert q == q[..k] + [q[k]] + q[k + 1..];
    }
  }

  /* Any interleaving of arrivals and the two readers. */

  datatype Op = Arrive(b: uint8) | TakeChar | TakeText(maxSize: nat)

  datatype Output = Char(c: int) | Text(r: ReadResult)

  function StepQueue(q: seq<uint8>, op: Op): seq<uint8> {
    match op
    case Arrive(b) => q + [b]
    case TakeChar => if q == [] then q else q[1..]
    case TakeText(m) => ReadLine(q, m).1
  }

  function StepOutput(q: seq<uint8>, op: Op): seq<Output> {
    match op
    case Arrive(b) => []
    case TakeChar => [Char(if q == [] then -1 else q[0])]
    case TakeText(m) => [Text(ReadLine(q, m).0)]
  }

  function Queue(q: seq<uint8>, ops: seq<Op>): seq<uint8> {
    if ops == [] then q else StepQueue(Queue(q, ops[..|ops| - 1]), ops[|ops| - 1])
  }

  function Outputs(q: seq<uint8>, ops: seq<Op>): seq<Output> {
    if ops == [] then [] else
      Outputs(q, ops[..|ops| - 1]) + StepOutput(Queue(q, ops[..|ops| - 1]), ops[|ops| - 1])
  }

  // The DMA never leaves more than SIZE - 1 bytes unread, and the line buffer is as announced.
  predicate Admissible(q: seq<uint8>, ops: seq<Op>, lineBuffer: nat) {
    forall k | 0 <= k < |ops| ::
      && (ops[k].Arrive? ==> |Queue(q, ops[..k])| < SIZE - 1)
      && (ops[k].TakeText? ==> ops[k].maxSize <= lineBuffer)
  }

  method Interleave(ring: Ring, ops: seq<Op>, lineBuffer: array<uint8>) returns (outputs: seq<Output>)
    requires ring.Valid() && lineBuffer != ring.buf
    requires Admissible(ring.Unread(), ops, lineBuffer.Length)
    modifies ring, ring.buf, lineBuffer
    ensures ring.Valid()
    ensures ring.Unread() == Queue(old(ring.Unread()), ops)
    ensures outputs == Outputs(old(ring.Unread()), ops)
  {
    hide ReadLine, LineEnd, NoLineEndIn, Ring.Region, Ring.Distance;
    ghost var q := ring.Unread();
    outputs := [];
    var i := 0;
    assert ops[..0] == [];
    while i < |ops|
      invariant 0 <= i <= |ops| && ring.Valid()
      invariant ring.Unread() == Queue(q, ops[..i]) && outputs == Outputs(q, ops[..i])
    {
      assert ops[..i + 1][..i] == ops[..i];
      match ops[i] {
        case Arrive(b) =>
          ring.Deposit(b);
        case TakeChar =>
          var c := ring.GetChar();
          outputs := outputs + [Char(c)];
        case TakeText(m) =>
          var n := ring.ReadLineInto(lineBuffer, m);
          outputs := outputs + [Text(if n == -1 then NoLine else Line(lineBuffer[..n]))];
      }
      i := i + 1;
    }
    assert ops[..i] == ops;
  }
}
