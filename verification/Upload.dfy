/**
  The host uploader, and a whole transfer: uploader, bootloader, flash.
*/
module Upload {
  import opened Crc
  import opened Flash
  import opened Boot

  const CARRIAGE_RETURN: bv8 := 0x0D

  // What follows the command line that announces the transfer.
  function Image(file: Bytes): Bytes {
    if file == [] then [] else if file[0] == CARRIAGE_RETURN then file[1..] else Image(file[1..])
  }

  lemma {:induction false} ImageGrows(file: Bytes, b: bv8)
    ensures Image(file + [b])
         == if CARRIAGE_RETURN in file then Image(file) + [b] else []
  {
    if file == [] {
      assert Image([b]) == [];
    } else {
      assert (file + [b])[1..] == file[1..] + [b];
      if file[0] != CARRIAGE_RETURN {
        ImageGrows(file[1..], b);
        assert CARRIAGE_RETURN in file <==> CARRIAGE_RETURN in file[1..];
      }
    }
  }

  // The image is what follows the command line, and covered by the trailer as a whole.
  lemma {:induction false} ImageFollowsCommand(command: Bytes, image: Bytes)
    requires CARRIAGE_RETURN !in command
    ensures Image(command + [0x0D] + image) == image && Image(command) == []
  {
    var file := command + [0x0D] + image;
    if command == [] {
      assert file[1..] == image;
    } else {
      assert file[1..] == command[1..] + [0x0D] + image;
      ImageFollowsCommand(command[1..], image);
    }
  }

  lemma NothingSentYet()
    ensures TableCrc(0, []) == 0 && Image([]) == []
  {
  }

  // Sends the file, and the CRC of everything after its first carriage return.
  method Send(file: Bytes) returns (wire: Bytes)
    ensures wire == file + TrailerBytes(TableCrc(0, Image(file)))
  {
    hide TableCrc, TableStep, Image, TrailerBytes;
    NothingSentYet();
    var crc: bv16 := 0;
    var header := true;
    var i := 0;
    wire := [];
    while i < |file|
      invariant 0 <= i <= |file|
      invariant wire == file[..i]
      invariant header <==> CARRIAGE_RETURN !in file[..i]
      invariant crc == TableCrc(0, Image(file[..i]))
      invariant header ==> crc == 0
    {
      var dat := file[i];
      ImageGrows(file[..i], dat);
      assert file[..i + 1] == file[..i] + [dat];
      if !header {
        TableCrcNext(0, Image(file[..i]), dat);
        crc := TableStep(crc, dat);
      }
      if CARRIAGE_RETURN == dat {
        header := false;
      }
      wire := wire + [dat];
      i := i + 1;
    }
    assert file[..i] == file;
    TrailerFollows(file, crc);
    wire := wire + [(crc >> 8) as bv8];
    wire := wire + [(crc & 0xFF) as bv8];
  }

  lemma TrailerFollows(file: Bytes, crc: bv16)
    ensures (file + [(crc >> 8) as bv8]) + [(crc & 0xFF) as bv8] == file + TrailerBytes(crc)
  {
  }

  function Flatten(polls: seq<Bytes>): Bytes {
    if polls == [] then [] else polls[0] + Flatten(polls[1..])
  }

  lemma {:induction false} FlattenSnoc(polls: seq<Bytes>, p: Bytes)
    ensures Flatten(polls + [p]) == Flatten(polls) + p
  {
    if polls == [] {
      assert Flatten([p]) == p + [] == p;
    } else {
      assert (polls + [p])[1..] == polls[1..] + [p];
      FlattenSnoc(polls[1..], p);
    }
  }

  // The line is never silent for as long as the timeout between two arrivals.
  predicate NeverSilentTooLong(polls: seq<Bytes>, silent: nat) {
    polls == []
    || (silent + 1 < RECEIVE_TIMEOUT
        && NeverSilentTooLong(polls[1..], if polls[0] == [] then silent + 1 else 0))
  }

  // One reception, from the command to the verdict: polls are what successive events find
  // in the serial buffer, after which the line stays silent.
  method Receive(boot: Bootloader, dataSize: nat, polls: seq<Bytes>)
    requires boot.Valid()
    requires 0 < dataSize && dataSize + 2 <= MAX_CODE_SIZE
    requires NeverSilentTooLong(polls, 0)
    modifies boot, boot.data
    ensures boot.Valid() && !boot.receiving && boot.size == dataSize + 2
    ensures boot.received == Flatten(polls)
    ensures boot.crcWasGood
       <==> Counter(|Flatten(polls)|) == dataSize + 2
            && Accepts(Flatten(polls)[|Flatten(polls)| - (dataSize + 2)..])
  {
    hide Accepts, TableCrc, Counter;
    boot.BeginReceive(dataSize);
    var i := 0;
    while i < |polls|
      invariant 0 <= i <= |polls|
      invariant boot.Valid() && boot.receiving && boot.size == dataSize + 2
      invariant boot.received == Flatten(polls[..i])
      invariant NeverSilentTooLong(polls[i..], boot.timeoutCounter)
    {
      FlattenSnoc(polls[..i], polls[i]);
      assert polls[..i + 1] == polls[..i] + [polls[i]];
      assert polls[i..][1..] == polls[i + 1..];
      var taken := boot.Event(polls[i]);
      assert polls[i][..taken] == polls[i];
      i := i + 1;
    }
    assert polls[..i] == polls;
    while boot.receiving
      invariant boot.Valid() && boot.size == dataSize + 2
      invariant boot.received == Flatten(polls)
      invariant !boot.receiving ==>
                  (boot.crcWasGood
              <==> Counter(|Flatten(polls)|) == dataSize + 2
                   && Accepts(Flatten(polls)[|Flatten(polls)| - (dataSize + 2)..]))
      decreases boot.receiving, RECEIVE_TIMEOUT - boot.timeoutCounter
    {
      var taken := boot.Event([]);
    }
  }

  lemma CounterCounts(n: nat)
    requires 0 < n <= MAX_CODE_SIZE
    ensures Counter(n) == n
  {
  }

  // A lap of the whole transfer puts the image at the start of the buffer.
  lemma ImageBuffered(buffer: Bytes, lap: Bytes, image: Bytes, trailer: Bytes)
    requires lap == image + trailer && |image| <= |buffer|
    requires forall k | 0 <= k < |lap| && k < |buffer| :: buffer[k] == lap[k]
    ensures buffer[..|image|] == image
  {
    forall k | 0 <= k < |image| ensures buffer[k] == image[k] {
      assert lap[k] == image[k];
    }
  }

  lemma ImageFlashed(cells: Bytes, before: Bytes, buffer: Bytes, image: Bytes, pages: nat)
    requires |image| <= WordAligned(|image|)
    requires Flashed(cells, before, buffer, WordAligned(|image|), pages)
    requires |image| <= |buffer| && buffer[..|image|] == image
    ensures |image| <= |cells| && cells[..|image|] == image
  {
    var n, upto := |image|, WordAligned(|image|);
    assert cells[..n] == cells[..upto][..n] == buffer[..upto][..n] == buffer[..n];
  }

  // End to end: an image sent with the uploader's trailer, in whatever pieces it arrives,
  // is in flash after the copy, unless a page it needs cannot be programmed.
  method Reflash(boot: Bootloader, flash: FlashDevice, image: Bytes, polls: seq<Bytes>) returns (outcome: Outcome)
    requires boot.Valid() && flash.Valid()
    requires boot.data != flash.cells && boot.data != flash.latch
    requires 0 < |image| && |image| + 2 <= MAX_CODE_SIZE
    requires NeverSilentTooLong(polls, 0)
    requires Flatten(polls) == image + TrailerBytes(TableCrc(0, image))
    modifies boot, boot.data, flash`programmed, flash.cells, flash.latch
    ensures outcome != NoImage
    ensures outcome == Reset <==> forall p | 0 <= p <= |image| / PAGE_SIZE :: !flash.Refuses(p)
    ensures outcome == Reset ==> flash.cells[..|image|] == image
  {
    hide TableCrc, Flatten, TrailerBytes, NeverSilentTooLong, Flashed, Bootloader.Valid;
    var n := |image|;
    ReceiveImage(boot, image, polls);
    ghost var buffer, before := boot.data[..], flash.cells[..];
    outcome := boot.Core(flash);
    if outcome == Reset {
      ImageFlashed(flash.cells[..], before, buffer, image, n / PAGE_SIZE + 1);
    }
  }

  // The first half: the image is in the buffer, and known to be good.
  method ReceiveImage(boot: Bootloader, image: Bytes, polls: seq<Bytes>)
    requires boot.Valid()
    requires 0 < |image| && |image| + 2 <= MAX_CODE_SIZE
    requires NeverSilentTooLong(polls, 0)
    requires Flatten(polls) == image + TrailerBytes(TableCrc(0, image))
    modifies boot, boot.data
    ensures boot.Valid() && boot.crcWasGood && boot.size == |image| + 2
    ensures boot.data.Length == MAX_CODE_SIZE && boot.data[..|image|] == image
  {
    hide Accepts, TableCrc, Counter;
    var n := |image|;
    CounterCounts(n + 2);
    SenderIsAccepted(image);
    Receive(boot, n, polls);
    hide Flatten, NeverSilentTooLong;
    ghost var all, trailer := Flatten(polls), TrailerBytes(TableCrc(0, image));
    assert |trailer| == 2 && all[|all| - (n + 2)..] == all;
    ImageBuffered(boot.data[..], boot.Lap(), image, trailer);
  }
}
