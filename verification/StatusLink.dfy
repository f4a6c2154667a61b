/**
  The host's end of the status link: the terminal's marking of received bytes, and the parser
  that undoes it and finds the packets.
*/
module StatusLink {
  import opened Words
  import opened CommandStream
  import opened StatusFrames

  const MARK: uint8 := 0xFF

  // A byte off the line, with or without a parity error.
  datatype Received = Good(value: uint8) | Bad(value: uint8)

  // The PARMRK rule, section 11.2.2 (Input Modes) of POSIX.1, Base Definitions.
  function Marked(r: Received): seq<uint8> {
    match r
    case Good(b) => if b == MARK then [MARK, MARK] else [b]
    case Bad(b) => [MARK, 0, b]
  }

  function Terminal(line: seq<Received>): seq<uint8> {
    if line == [] then [] else Marked(line[0]) + Terminal(line[1..])
  }

  datatype Link = Seeking(found: nat) | Collecting(got: seq<uint8>) | Escaped(got: seq<uint8>)

  predicate Possible(l: Link) {
    match l
    case Seeking(n) => n < |HEADER|
    case _ => |l.got| < STATE_LENGTH
  }

  datatype Fed = Fed(link: Link, packets: seq<seq<uint8>>)

  function Before(packets: seq<seq<uint8>>, f: Fed): Fed {
    f.(packets := packets + f.packets)
  }

  function Seek(n: nat, b: uint8): (l: Link)
    requires n < |HEADER|
    ensures Possible(l)
  {
    if b != HEADER[n] then Seeking(n)
    else if n >= 3 then Collecting([]) else Seeking(n + 1)
  }

  function Store(got: seq<uint8>, b: uint8): (f: Fed)
    requires |got| < STATE_LENGTH
    ensures Possible(f.link)
    ensures forall p | p in f.packets :: |p| == STATE_LENGTH
  {
    if |got| + 1 == STATE_LENGTH then Fed(Seeking(0), [got + [b]]) else Fed(Collecting(got + [b]), [])
  }

  /* The parser, on the bytes that the terminal delivers. */

  // One call, with what is left to read after it: a marked error swallows the byte in error.
  function Parse1(l: Link, bytes: seq<uint8>): (r: (Fed, seq<uint8>))
    requires Possible(l) && bytes != []
    ensures Possible(r.0.link) && |r.1| < |bytes|
  {
    var b, rest := bytes[0], bytes[1..];
    match l
    case Seeking(n) => (Fed(Seek(n, b), []), rest)
    case Collecting(got) => if b == MARK then (Fed(Escaped(got), []), rest) else (Store(got, b), rest)
    case Escaped(got) =>
      if b == MARK then (Store(got, b), rest)
      else if b == 0 then (Fed(Seeking(0), []), if rest == [] then [] else rest[1..])
      else (Fed(Seeking(0), []), rest)
  }

  function ParseAll(l: Link, bytes: seq<uint8>): (f: Fed)
    requires Possible(l)
    ensures Possible(f.link)
    decreases |bytes|
  {
    if bytes == [] then Fed(l, []) else
      var (f, rest) := Parse1(l, bytes);
      Before(f.packets, ParseAll(f.link, rest))
  }

  /* The reference, on the bytes of the line: an error loses the packet it falls into. */

  function Take1(l: Link, r: Received): (f: Fed)
    requires Possible(l) && !l.Escaped?
    ensures Possible(f.link) && !f.link.Escaped?
  {
    match l
    case Seeking(n) => Fed(Seek(n, r.value), [])
    case Collecting(got) => if r.Good? then Store(got, r.value) else Fed(Seeking(0), [])
  }

  function TakeAll(l: Link, line: seq<Received>): (f: Fed)
    requires Possible(l) && !l.Escaped?
    ensures Possible(f.link) && !f.link.Escaped?
    decreases |line|
  {
    if line == [] then Fed(l, []) else
      var f := Take1(l, line[0]);
      Before(f.packets, TakeAll(f.link, line[1..]))
  }

  lemma ParseMarked(l: Link, r: Received, rest: seq<uint8>)
    requires Possible(l) && !l.Escaped?
    ensures ParseAll(l, Marked(r) + rest)
         == Before(Take1(l, r).packets, ParseAll(Take1(l, r).link, rest))
  {
    var bytes := Marked(r) + rest;
    if r == Good(r.value) && r.value != MARK {
      assert bytes[1..] == rest;
    } else if l.Seeking? {
      assert bytes[1..][0] != HEADER[l.found];
      assert ParseAll(l, bytes) == ParseAll(l, bytes[1..]);
      assert ParseAll(l, bytes[1..]) == if r.Good? then ParseAll(l, bytes[2..]) else ParseAll(l, bytes[2..]);
      if r.Good? {
        assert bytes[2..] == rest;
      } else {
        assert bytes[2..][0] == r.value && bytes[2..][1..] == rest;
      }
    } else {
      assert ParseAll(l, bytes) == ParseAll(Escaped(l.got), bytes[1..]);
      if r.Good? {
        assert bytes[1..][1..] == rest;
      } else {
        assert bytes[1..][1..][1..] == rest;
      }
    }
  }

  // The parser undoes the marking, whatever comes in.
  lemma {:induction false} ParserSeesTheLine(l: Link, line: seq<Received>)
    requires Possible(l) && !l.Escaped?
    ensures ParseAll(l, Terminal(line)) == TakeAll(l, line)
    decreases |line|
  {
    hide Take1, Parse1, Marked, ParseAll;
    if line == [] {
      ParseNothing(l);
    } else {
      ParseMarked(l, line[0], Terminal(line[1..]));
      ParserSeesTheLine(Take1(l, line[0]).link, line[1..]);
    }
  }

  lemma ParseNothing(l: Link)
    requires Possible(l)
    ensures ParseAll(l, []) == Fed(l, [])
  {
  }

  lemma {:induction false} TakeInTurn(l: Link, a: seq<Received>, b: seq<Received>)
    requires Possible(l) && !l.Escaped?
    ensures TakeAll(l, a + b) == Before(TakeAll(l, a).packets, TakeAll(TakeAll(l, a).link, b))
    decreases |a|
  {
    hide Take1;
    if a == [] {
      assert a + b == b;
    } else {
      assert (a + b)[1..] == a[1..] + b;
      TakeInTurn(Take1(l, a[0]).link, a[1..], b);
    }
  }

  /* Frames. */

  function Goods(bytes: seq<uint8>): (line: seq<Received>)
    ensures |line| == |bytes| && forall k | 0 <= k < |bytes| :: line[k] == Good(bytes[k])
  {
    seq(|bytes|, k requires 0 <= k < |bytes| => Good(bytes[k]))
  }

  lemma GoodsJoin(a: seq<uint8>, b: seq<uint8>)
    ensures Goods(a + b) == Goods(a) + Goods(b)
  {
  }

  lemma TakeGood(l: Link, b: uint8)
    requires Possible(l) && !l.Escaped?
    ensures TakeAll(l, [Good(b)]) == Take1(l, Good(b))
  {
    assert [Good(b)][1..] == [];
    assert TakeAll(Take1(l, Good(b)).link, []) == Fed(Take1(l, Good(b)).link, []);
  }

  lemma SeekNext(n: nat, line: seq<Received>)
    requires n < |HEADER| && line != []
    ensures TakeAll(Seeking(n), line) == TakeAll(Seek(n, line[0].value), line[1..])
  {
  }

  // However much of a header was found before, a whole one leads into its packet.
  lemma HeaderAligns(n: nat)
    requires n < |HEADER|
    ensures TakeAll(Seeking(n), Goods(HEADER)) == Fed(Collecting([]), [])
  {
    hide TakeAll;
    var h := Goods(HEADER);
    SeekNext(n, h);
    assert h[1..][1..] == h[2..] && h[2..][1..] == h[3..] && h[3..][1..] == [];
    SeekNext(if n == 0 then 1 else n, h[1..]);
    SeekNext(if n <= 1 then 2 else n, h[2..]);
    SeekNext(3, h[3..]);
    TakeNothing(Collecting([]));
    assert Goods([]) == [];
  }

  lemma {:induction false} PacketCollected(got: seq<uint8>, p: seq<uint8>)
    requires p != [] && |got| + |p| <= STATE_LENGTH
    ensures TakeAll(Collecting(got), Goods(p))
         == if |got| + |p| == STATE_LENGTH then Fed(Seeking(0), [got + p]) else Fed(Collecting(got + p), [])
    decreases |p|
  {
    if |p| == 1 {
      TakeGood(Collecting(got), p[0]);
      assert Goods(p) == [Good(p[0])] && [p[0]] == p;
    } else {
      assert Goods(p)[1..] == Goods(p[1..]);
      PacketCollected(got + [p[0]], p[1..]);
      assert got + [p[0]] + p[1..] == got + p;
    }
  }

  lemma FrameReceived(n: nat, p: seq<uint8>)
    requires n < |HEADER| && |p| == STATE_LENGTH
    ensures TakeAll(Seeking(n), Goods(HEADER + p)) == Fed(Seeking(0), [p])
  {
    hide TakeAll;
    GoodsJoin(HEADER, p);
    TakeInTurn(Seeking(n), Goods(HEADER), Goods(p));
    HeaderAligns(n);
    PacketCollected([], p);
    assert [] + p == p;
  }

  function FramesOf(packets: seq<seq<uint8>>): seq<uint8> {
    if packets == [] then [] else HEADER + packets[0] + FramesOf(packets[1..])
  }

  // Every packet arrives, and nothing else does.
  lemma {:induction false} FramesReceived(n: nat, packets: seq<seq<uint8>>)
    requires n < |HEADER| && forall p | p in packets :: |p| == STATE_LENGTH
    ensures TakeAll(Seeking(n), Goods(FramesOf(packets)))
         == Fed(if packets == [] then Seeking(n) else Seeking(0), packets)
    decreases |packets|
  {
    hide TakeAll;
    if packets == [] {
      TakeNothing(Seeking(n));
    } else {
      var frame, rest := HEADER + packets[0], FramesOf(packets[1..]);
      GoodsJoin(frame, rest);
      TakeInTurn(Seeking(n), Goods(frame), Goods(rest));
      FrameReceived(n, packets[0]);
      FramesReceived(0, packets[1..]);
    }
  }

  lemma TakeNothing(l: Link)
    requires Possible(l) && !l.Escaped?
    ensures TakeAll(l, Goods([])) == Fed(l, [])
  {
    assert Goods([]) == [];
  }

  /* After an error. */

  // h occurs in g, in order but not necessarily without gaps.
  predicate Scattered(h: seq<uint8>, g: seq<Received>)
    decreases |g|
  {
    h == [] || (g != [] && (Scattered(h, g[1..]) || (g[0].value == h[0] && Scattered(h[1..], g[1..]))))
  }

  lemma {:induction false} ScatteredTail(h: seq<uint8>, g: seq<Received>)
    requires h != [] && Scattered(h, g)
    ensures Scattered(h[1..], g)
    decreases |g|
  {
    if Scattered(h, g[1..]) {
      ScatteredTail(h, g[1..]);
    }
  }

  // The parser enters a packet somewhere in g.
  predicate Enters(n: nat, g: seq<Received>)
    requires n < |HEADER|
    decreases |g|
  {
    g != [] && (Seek(n, g[0].value).Collecting? || Enters(Seek(n, g[0].value).found, g[1..]))
  }

  lemma {:induction false} EntersIffScattered(n: nat, g: seq<Received>)
    requires n < |HEADER|
    ensures Enters(n, g) <==> Scattered(HEADER[n..], g)
    decreases |g|
  {
    if g != [] {
      var h := HEADER[n..];
      if g[0].value == HEADER[n] {
        assert h[1..] == HEADER[n + 1..];
        if Scattered(h, g[1..]) {
          ScatteredTail(h, g[1..]);
        }
        if n < 3 {
          EntersIffScattered(n + 1, g[1..]);
        } else {
          assert Scattered(h[1..], g[1..]);
        }
      } else {
        EntersIffScattered(n, g[1..]);
      }
    }
  }

  lemma {:induction false} StaysOutside(n: nat, g: seq<Received>)
    requires n < |HEADER| && !Enters(n, g)
    ensures TakeAll(Seeking(n), g).link.Seeking? && TakeAll(Seeking(n), g).packets == []
    decreases |g|
  {
    if g != [] {
      StaysOutside(Seek(n, g[0].value).found, g[1..]);
    }
  }

  // What is left of a packet after a parity error is passed over, and all that follow are
  // received, if the four header bytes do not lie scattered in what is left.
  lemma RestPassedOver(p: seq<uint8>, k: nat, bad: uint8, packets: seq<seq<uint8>>)
    requires |p| == STATE_LENGTH && k < |p|
    requires forall q | q in packets :: |q| == STATE_LENGTH
    requires !Scattered(HEADER, Goods(p[k + 1..]))
    ensures var line := Goods(HEADER + p[..k]) + [Bad(bad)] + Goods(p[k + 1..]) + Goods(FramesOf(packets));
            TakeAll(Seeking(0), line).packets == packets
  {
    hide TakeAll, Scattered, FramesOf;
    var a, c, d := Goods(HEADER + p[..k]), Goods(p[k + 1..]), Goods(FramesOf(packets));
    TakeInTurn(Seeking(0), a + [Bad(bad)] + c, d);
    TakeInTurn(Seeking(0), a + [Bad(bad)], c);
    TakeInTurn(Seeking(0), a, [Bad(bad)]);
    BrokenOff(p[..k]);
    TakeBad(p[..k], bad);
    assert HEADER[0..] == HEADER;
    EntersIffScattered(0, c);
    StaysOutside(0, c);
    FramesReceived(TakeAll(Seeking(0), c).link.found, packets);
  }

  lemma BrokenOff(p: seq<uint8>)
    requires |p| < STATE_LENGTH
    ensures TakeAll(Seeking(0), Goods(HEADER + p)) == Fed(Collecting(p), [])
  {
    hide TakeAll;
    GoodsJoin(HEADER, p);
    TakeInTurn(Seeking(0), Goods(HEADER), Goods(p));
    HeaderAligns(0);
    if p == [] {
      TakeNothing(Collecting([]));
    } else {
      PacketCollected([], p);
      assert [] + p == p;
    }
  }

  lemma TakeBad(got: seq<uint8>, bad: uint8)
    requires |got| < STATE_LENGTH
    ensures TakeAll(Collecting(got), [Bad(bad)]) == Fed(Seeking(0), [])
  {
    assert [Bad(bad)][1..] == [];
  }

  // An error in the j-th header byte costs nothing if the byte is right all the same, and
  // otherwise that packet alone, if the header does not lie scattered in what is left.
  lemma HeaderPassedOver(j: nat, bad: uint8, p: seq<uint8>, packets: seq<seq<uint8>>)
    requires j < |HEADER| && |p| == STATE_LENGTH
    requires forall q | q in packets :: |q| == STATE_LENGTH
    ensures var damaged := Goods(HEADER[..j]) + [Bad(bad)] + Goods(HEADER[j + 1..] + p);
            var got := TakeAll(Seeking(0), damaged + Goods(FramesOf(packets))).packets;
            && (bad == HEADER[j] ==> got == [p] + packets)
            && (!Scattered(HEADER, damaged) ==> got == packets)
  {
    hide TakeAll, Scattered, FramesOf;
    var damaged, later := Goods(HEADER[..j]) + [Bad(bad)] + Goods(HEADER[j + 1..] + p), Goods(FramesOf(packets));
    TakeInTurn(Seeking(0), damaged, later);
    if bad == HEADER[j] {
      RightAllTheSame(j, p);
      FramesReceived(0, packets);
    }
    if !Scattered(HEADER, damaged) {
      assert HEADER[0..] == HEADER;
      EntersIffScattered(0, damaged);
      StaysOutside(0, damaged);
      if bad != HEADER[j] {
        FramesReceived(TakeAll(Seeking(0), damaged).link.found, packets);
      }
    }
  }

  lemma RightAllTheSame(j: nat, p: seq<uint8>)
    requires j < |HEADER| && |p| == STATE_LENGTH
    ensures TakeAll(Seeking(0), Goods(HEADER[..j]) + [Bad(HEADER[j])] + Goods(HEADER[j + 1..] + p))
         == Fed(Seeking(0), [p])
  {
    hide TakeAll;
    var a, b := Goods(HEADER[..j]), Goods(HEADER[j + 1..] + p);
    TakeInTurn(Seeking(0), a + [Bad(HEADER[j])], b);
    TakeInTurn(Seeking(0), a, [Bad(HEADER[j])]);
    TakeInTurn(Seeking(0), a, [Good(HEADER[j])]);
    TakeInTurn(Seeking(0), a + [Good(HEADER[j])], b);
    HeaderFound(j);
    SeekNext(j, [Bad(HEADER[j])]);
    SeekNext(j, [Good(HEADER[j])]);
    assert [Bad(HEADER[j])][1..] == [] == [Good(HEADER[j])][1..];
    assert a + [Good(HEADER[j])] + b == Goods(HEADER + p);
    FrameReceived(0, p);
  }

  lemma {:induction false} HeaderFound(j: nat)
    requires j < |HEADER|
    ensures TakeAll(Seeking(0), Goods(HEADER[..j])) == Fed(Seeking(j), [])
    decreases j
  {
    hide TakeAll;
    if j == 0 {
      assert HEADER[..0] == [];
      TakeNothing(Seeking(0));
    } else {
      HeaderFound(j - 1);
      assert HEADER[..j] == HEADER[..j - 1] + [HEADER[j - 1]];
      GoodsJoin(HEADER[..j - 1], [HEADER[j - 1]]);
      TakeInTurn(Seeking(0), Goods(HEADER[..j - 1]), Goods([HEADER[j - 1]]));
      assert Goods([HEADER[j - 1]]) == [Good(HEADER[j - 1])];
      TakeGood(Seeking(j - 1), HEADER[j - 1]);
    }
  }

  /* And if it does, a later packet is lost. */

  // A parser that enters a packet among good bytes goes on collecting, when they are few.
  lemma {:induction false} EntersAndCollects(n: nat, g: seq<uint8>) returns (c: seq<uint8>)
    requires n < |HEADER| && Enters(n, Goods(g)) && |g| + n < STATE_LENGTH + |HEADER|
    ensures TakeAll(Seeking(n), Goods(g)) == Fed(Collecting(c), [])
    ensures |c| + |HEADER| <= |g| + n
    decreases |g|
  {
    hide TakeAll;
    var l := Goods(g);
    assert l[1..] == Goods(g[1..]);
    SeekNext(n, l);
    var next := Seek(n, g[0]);
    if next.Collecting? {
      c := g[1..];
      if c == [] {
        TakeNothing(Collecting([]));
      } else {
        PacketCollected([], c);
        assert [] + c == c;
      }
    } else {
      c := EntersAndCollects(next.found, g[1..]);
    }
  }

  const ZEROS: seq<uint8> := seq(STATE_LENGTH, i => 0)

  // The packet such a parser then completes is not the one that was sent.
  lemma CollectsTheWrongPacket(c: seq<uint8>)
    requires |c| < STATE_LENGTH
    ensures TakeAll(Collecting(c), Goods(FramesOf([ZEROS]))).packets != [ZEROS]
  {
    hide TakeAll;
    assert FramesOf([ZEROS]) == HEADER + ZEROS;
    var all, m := HEADER + ZEROS, STATE_LENGTH - |c|;
    var a, b := all[..m], all[m..];
    assert all == a + b;
    GoodsJoin(a, b);
    TakeInTurn(Collecting(c), Goods(a), Goods(b));
    PacketCollected(c, a);
    assert (c + a)[|c|] == HEADER[0];
    var got := TakeAll(Collecting(c), Goods(all)).packets;
    assert got[0] == c + a;
    assert got[0][|c|] != ZEROS[|c|];
  }

  // What follows is received, all of it, and nothing else is.
  ghost predicate CostsJustItself(line: seq<Received>) {
    forall packets: seq<seq<uint8>> :: AllWhole(packets) ==>
      TakeAll(Seeking(0), line + Goods(FramesOf(packets))).packets == packets
  }

  predicate AllWhole(packets: seq<seq<uint8>>) {
    forall q | q in packets :: |q| == STATE_LENGTH
  }

  lemma CollectingCostsMore(line: seq<Received>, c: seq<uint8>)
    requires |c| < STATE_LENGTH && TakeAll(Seeking(0), line) == Fed(Collecting(c), [])
    ensures !CostsJustItself(line)
  {
    hide TakeAll, FramesOf;
    TakeInTurn(Seeking(0), line, Goods(FramesOf([ZEROS])));
    CollectsTheWrongPacket(c);
    assert AllWhole([ZEROS]);
  }

  function Broken(p: seq<uint8>, k: nat, bad: uint8): seq<Received>
    requires k < |p|
  {
    Goods(HEADER + p[..k]) + [Bad(bad)] + Goods(p[k + 1..])
  }

  // A parity error in a packet costs that packet and no other, whatever follows, if and only
  // if the header bytes do not lie scattered in what is left of it.
  lemma OnePacketLostIff(p: seq<uint8>, k: nat, bad: uint8)
    requires |p| == STATE_LENGTH && k < |p|
    ensures CostsJustItself(Broken(p, k, bad)) <==> !Scattered(HEADER, Goods(p[k + 1..]))
  {
    hide TakeAll, Scattered, FramesOf;
    var rest := p[k + 1..];
    if Scattered(HEADER, Goods(rest)) {
      assert HEADER[0..] == HEADER;
      EntersIffScattered(0, Goods(rest));
      var c := EntersAndCollects(0, rest);
      var a := Goods(HEADER + p[..k]);
      TakeInTurn(Seeking(0), a + [Bad(bad)], Goods(rest));
      TakeInTurn(Seeking(0), a, [Bad(bad)]);
      BrokenOff(p[..k]);
      TakeBad(p[..k], bad);
      CollectingCostsMore(Broken(p, k, bad), c);
    } else {
      forall packets: seq<seq<uint8>> | AllWhole(packets)
        ensures TakeAll(Seeking(0), Broken(p, k, bad) + Goods(FramesOf(packets))).packets == packets
      {
        RestPassedOver(p, k, bad, packets);
      }
    }
  }

  function Damaged(j: nat, bad: uint8, p: seq<uint8>): seq<Received>
    requires j < |HEADER|
  {
    Goods(HEADER[..j]) + [Bad(bad)] + Goods(HEADER[j + 1..] + p)
  }

  // Before the error, and at it, nothing is entered that would not be found later.
  lemma DamagedParts(j: nat, bad: uint8, p: seq<uint8>)
    requires j < |HEADER| && bad != HEADER[j]
    ensures TakeAll(Seeking(0), Damaged(j, bad, p)) == TakeAll(Seeking(j), Goods(HEADER[j + 1..] + p))
    ensures Enters(0, Damaged(j, bad, p)) <==> Enters(j, Goods(HEADER[j + 1..] + p))
  {
    hide TakeAll, Enters;
    var a, b := Goods(HEADER[..j]), Goods(HEADER[j + 1..] + p);
    assert Damaged(j, bad, p) == a + ([Bad(bad)] + b);
    TakeInTurn(Seeking(0), a, [Bad(bad)] + b);
    HeaderFound(j);
    SeekNext(j, [Bad(bad)] + b);
    assert ([Bad(bad)] + b)[1..] == b;
    HeaderEnters(j, [Bad(bad)] + b);
    EntersNext(j, [Bad(bad)] + b);
  }

  lemma EntersNext(n: nat, g: seq<Received>)
    requires n < |HEADER| && g != []
    ensures Enters(n, g) <==> Seek(n, g[0].value).Collecting? || Enters(Seek(n, g[0].value).found, g[1..])
  {
  }

  lemma {:induction false} HeaderEnters(j: nat, g: seq<Received>)
    requires j < |HEADER|
    ensures Enters(0, Goods(HEADER[..j]) + g) <==> Enters(j, g)
    decreases j
  {
    hide Enters;
    if j == 0 {
      assert Goods(HEADER[..0]) + g == g;
    } else {
      var h := HEADER[j - 1];
      assert HEADER[..j] == HEADER[..j - 1] + [h];
      GoodsJoin(HEADER[..j - 1], [h]);
      var more := [Good(h)] + g;
      assert Goods([h]) == [Good(h)];
      assert Goods(HEADER[..j]) + g == Goods(HEADER[..j - 1]) + more;
      HeaderEnters(j - 1, more);
      EntersNext(j - 1, more);
      assert more[1..] == g;
    }
  }

  // An error in a header byte costs no more than its packet, whatever follows, if and only if
  // the header does not lie scattered in the damaged frame; and if the byte is right all the
  // same, it does, and that packet is received.
  lemma HeaderErrorCostsIff(j: nat, bad: uint8, p: seq<uint8>)
    requires j < |HEADER| && |p| == STATE_LENGTH
    ensures CostsJustItself(Damaged(j, bad, p)) <==> !Scattered(HEADER, Damaged(j, bad, p))
    ensures bad == HEADER[j] ==> TakeAll(Seeking(0), Damaged(j, bad, p)) == Fed(Seeking(0), [p])
  {
    hide TakeAll, Scattered, FramesOf, Enters;
    var line := Damaged(j, bad, p);
    assert HEADER[0..] == HEADER;
    EntersIffScattered(0, line);
    if Enters(0, line) {
      if bad == HEADER[j] {
        RightAllTheSame(j, p);
        PacketTooMany(line, p);
      } else {
        DamagedParts(j, bad, p);
        var c := EntersAndCollects(j, HEADER[j + 1..] + p);
        CollectingCostsMore(line, c);
      }
    } else {
      forall packets: seq<seq<uint8>> | AllWhole(packets)
        ensures TakeAll(Seeking(0), line + Goods(FramesOf(packets))).packets == packets
      {
        HeaderPassedOver(j, bad, p, packets);
      }
      if bad == HEADER[j] {
        RightAllTheSame(j, p);
        StaysOutside(0, line);
      }
    }
  }

  lemma PacketTooMany(line: seq<Received>, p: seq<uint8>)
    requires TakeAll(Seeking(0), line) == Fed(Seeking(0), [p])
    ensures !CostsJustItself(line)
  {
    assert FramesOf([]) == [] && Goods([]) == [] && line + [] == line;
    hide TakeAll;
    assert AllWhole([]);
    assert TakeAll(Seeking(0), line + Goods(FramesOf([]))).packets != [];
  }
}
