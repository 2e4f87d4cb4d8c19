/** The frames on the serial line to the signal controller: how they are printed,
    and what the receive loop makes of a stream of bytes. */
module Frames {

  type byte = bv8

  const DLE: byte := 0xAA
  const STX: byte := 0xBB
  const ETX: byte := 0xCC
  const ACK: byte := 0xDD
  const NAK: byte := 0xEE
  const ADDR: byte := 0xFF
  const ERR_CKS: byte := 0x1
  const ERR_LENGTH: byte := 0x8
  const HEADER_LEN := 10
  const MAX_PACKET_LEN := 128
  const MAX_PAYLOAD_LEN := MAX_PACKET_LEN - HEADER_LEN
  const HEAD := 5

  // ------------------------------------------------------------------ checksum

  function Xor(s: seq<byte>): byte {
    if s == [] then 0 else s[0] ^ Xor(s[1..])
  }

  lemma {:induction false} XorAppend(s: seq<byte>, t: seq<byte>)
    ensures Xor(s + t) == Xor(s) ^ Xor(t)
    decreases |s|
  {
    if s == [] {
      assert s + t == t;
    } else {
      XorAppend(s[1..], t);
      assert (s + t)[1..] == s[1..] + t;
    }
  }

  /** Changing one byte changes the checksum. */
  lemma {:induction false} XorChanges(s: seq<byte>, k: nat, b: byte)
    requires k < |s| && b != s[k]
    ensures Xor(s[k := b]) != Xor(s)
    decreases |s|
  {
    if k == 0 {
      assert s[k := b][1..] == s[1..];
    } else {
      XorChanges(s[1..], k - 1, b);
      assert s[k := b][1..] == s[1..][k - 1 := b];
    }
  }

  /** Over the nine header fields, the trailer bytes included, and the information. */
  function Cks(kind: byte, head: Head, dle2: byte, etx: byte, info: seq<byte>): byte {
    Xor([DLE, kind] + head + [dle2, etx]) ^ Xor(info)
  }

  // -------------------------------------------------------------------- frames

  /** A sequence number, an address and a length, two bytes each of the latter. */
  type Head = h: seq<byte> | |h| == HEAD witness [0, 0, 0, 0, 0]

  function MakeHead(num: byte, addr0: byte, addr1: byte, len0: byte, len1: byte): Head {
    var h := [num, addr0, addr1, len0, len1];
    assert |h| == HEAD;
    h
  }

  datatype Frame =
    | InfoFrame(head: Head, info: seq<byte>)
    | AckFrame(head: Head)
    | NakFrame(head: Head, code: byte)
  {
    predicate WellFormed() {
      InfoFrame? ==> PacketLen(head) == |info| + HEADER_LEN <= MAX_PACKET_LEN
    }

    function Bytes(): seq<byte> {
      match this
      case InfoFrame(head, info) =>
        [DLE, STX] + head + info + [DLE, ETX, Cks(STX, head, DLE, ETX, info)]
      case AckFrame(head) => [DLE, ACK] + head + [Cks(ACK, head, 0, 0, [])]
      case NakFrame(head, code) => [DLE, NAK] + head + [code, Cks(NAK, head, 0, 0, [code])]
    }

    /** What the receiver is to make of it. */
    function Meaning(): Heard
      requires WellFormed()
    {
      match this
      case InfoFrame(head, info) => GotInfo(head, info)
      case AckFrame(head) => GotAck(head[0])
      case NakFrame(head, code) => GotNak(code)
    }
  }

  function PacketLen(head: Head): nat
  {
    head[3] as nat * 256 + head[4] as nat
  }

  /** 16 bits wide, and unsigned: a packet shorter than its header wraps. */
  function InfoLen(head: Head): nat
  {
    (PacketLen(head) - HEADER_LEN) % 0x1_0000
  }

  // ------------------------------------------------------------------ receiving

  /** `Overlong` is a length that the packet buffer cannot hold; what the source
      does from there on is not part of this model. */
  datatype Heard =
    | GotInfo(head: Head, info: seq<byte>)
    | BadInfo(num: byte, error: byte)
    | GotAck(num: byte)
    | BadAck
    | GotNak(code: byte)
    | BadNak
    | Overlong

  /** The rest of a frame, or a read that waits for bytes that do not come. */
  datatype Taken = Blocked | Taken(heard: Heard, rest: seq<byte>)

  function TakeInfo(input: seq<byte>): (r: Taken)
    ensures r.Taken? ==> |r.rest| <= |input|
  {
    if |input| < HEAD then Blocked
    else
      var head, n := input[..HEAD], InfoLen(input[..HEAD]);
      if n > MAX_PAYLOAD_LEN then Taken(Overlong, [])
      else if |input[HEAD..]| < n then Blocked
      else TakeEnd(head, input[HEAD..][..n], input[HEAD..][n..])
  }

  /** The part of TakeInfo behind the information. */
  function TakeEnd(head: Head, info: seq<byte>, input: seq<byte>): (r: Taken)
    ensures r.Taken? ==> |r.rest| <= |input|
  {
    if |input| < 2 then Blocked
    else if input[0] != DLE || input[1] != ETX then Taken(BadInfo(head[0], ERR_LENGTH), input[2..])
    else TakeSum(head, info, input[2..])
  }

  function TakeSum(head: Head, info: seq<byte>, input: seq<byte>): (r: Taken)
    ensures r.Taken? ==> |r.rest| <= |input|
  {
    if input == [] then Blocked
    else if input[0] != Cks(STX, head, DLE, ETX, info) then Taken(BadInfo(head[0], ERR_CKS), input[1..])
    else Taken(GotInfo(head, info), input[1..])
  }

  function TakeAck(input: seq<byte>): (r: Taken)
    ensures r.Taken? ==> |r.rest| <= |input|
  {
    if |input| < 6 then Blocked
    else
      var head := input[..HEAD];
      Taken(if input[5] == Cks(ACK, head, 0, 0, []) then GotAck(head[0]) else BadAck, input[6..])
  }

  function TakeNak(input: seq<byte>): (r: Taken)
    ensures r.Taken? ==> |r.rest| <= |input|
  {
    if |input| < 7 then Blocked
    else
      var head, code := input[..HEAD], input[5];
      Taken(if input[6] == Cks(NAK, head, 0, 0, [code]) then GotNak(code) else BadNak, input[7..])
  }

  predicate Starts(b: byte) {
    b == STX || b == ACK || b == NAK
  }

  function Take(kind: byte, input: seq<byte>): (r: Taken)
    requires Starts(kind)
    ensures r.Taken? ==> |r.rest| <= |input|
  {
    if kind == STX then TakeInfo(input) else if kind == ACK then TakeAck(input) else TakeNak(input)
  }

  /** Everything the receive loop hears before it waits for more. */
  function Receive(input: seq<byte>, escape: bool): seq<Heard>
    decreases |input|
  {
    if input == [] then []
    else if !escape then Receive(input[1..], input[0] == DLE)
    else if !Starts(input[0]) then Receive(input[1..], false)
    else
      match Take(input[0], input[1..])
      case Blocked => []
      case Taken(heard, rest) => [heard] + Receive(rest, false)
  }

  // ------------------------------------------------------------------ round trip

  /** Whether the loop is in the middle of an escape after these bytes. */
  predicate Escaped(noise: seq<byte>, escape: bool) {
    if noise == [] then escape else Escaped(noise[1..], !escape && noise[0] == DLE)
  }

  /** Bytes in which the loop sees no start of a frame. */
  predicate NoStart(noise: seq<byte>, escape: bool) {
    noise == [] ||
    (!(escape && Starts(noise[0])) && NoStart(noise[1..], !escape && noise[0] == DLE))
  }

  predicate Quiet(noise: seq<byte>) {
    NoStart(noise, false) && !Escaped(noise, false)
  }

  lemma {:induction false} WithoutDleIsQuiet(noise: seq<byte>)
    requires DLE !in noise
    ensures Quiet(noise)
    decreases |noise|
  {
    if noise != [] {
      WithoutDleIsQuiet(noise[1..]);
    }
  }

  lemma {:induction false} NoiseIsSkipped(noise: seq<byte>, escape: bool, rest: seq<byte>)
    requires NoStart(noise, escape)
    ensures Receive(noise + rest, escape) == Receive(rest, Escaped(noise, escape))
    decreases |noise|
  {
    if noise == [] {
      assert noise + rest == rest;
    } else {
      assert (noise + rest)[1..] == noise[1..] + rest;
      NoiseIsSkipped(noise[1..], !escape && noise[0] == DLE, rest);
    }
  }

  /** A frame start and the two bytes that the loop reads to see it. */
  lemma {:induction false} StartIsSeen(kind: byte, body: seq<byte>)
    requires Starts(kind)
    ensures Receive([DLE, kind] + body, false) ==
      match Take(kind, body)
      case Blocked => []
      case Taken(heard, rest) => [heard] + Receive(rest, false)
  {
    var input := [DLE, kind] + body;
    assert input[1..] == [kind] + body && input[1..][1..] == body;
  }

  /** In the middle of an escape the start is not seen. */
  lemma {:induction false} StartIsSwallowed(kind: byte, body: seq<byte>)
    requires Starts(kind)
    ensures Receive([DLE, kind] + body, true) == Receive(body, false)
  {
    var input := [DLE, kind] + body;
    assert input[1..] == [kind] + body && input[1..][1..] == body;
  }

  function Body(f: Frame): seq<byte> {
    match f
    case InfoFrame(head, info) => head + info + [DLE, ETX, Cks(STX, head, DLE, ETX, info)]
    case AckFrame(head) => head + [Cks(ACK, head, 0, 0, [])]
    case NakFrame(head, code) => head + [code, Cks(NAK, head, 0, 0, [code])]
  }

  function Kind(f: Frame): (b: byte)
    ensures Starts(b)
  {
    match f
    case InfoFrame(_, _) => STX
    case AckFrame(_) => ACK
    case NakFrame(_, _) => NAK
  }

  lemma BytesAre(f: Frame, rest: seq<byte>)
    ensures f.Bytes() + rest == [DLE, Kind(f)] + (Body(f) + rest)
  {
  }

  lemma Parts(a: seq<byte>, b: seq<byte>, c: seq<byte>, d: seq<byte>)
    ensures var s := a + (b + (c + d)); var n := |a| + |b|;
      && s[..|a|] == a && s[|a|..n] == b && s[n..n + |c|] == c && s[n + |c|..] == d
      && a + b + c + d == s
  {
    var s := a + (b + (c + d));
    assert s[|a|..] == b + (c + d);
  }

  lemma Regroup(a: seq<byte>, b: seq<byte>, c: seq<byte>, d: seq<byte>)
    ensures a + (b + c) + d == a + (b + (c + d))
  {
  }

  /** A right length field leads to the end of the frame. */
  lemma InfoLeadsToEnd(head: Head, info: seq<byte>, end: seq<byte>)
    requires InfoFrame(head, info).WellFormed()
    ensures TakeInfo(head + (info + end)) == TakeEnd(head, info, end)
  {
    var input := head + (info + end);
    assert input[..HEAD] == head && input[HEAD..] == info + end;
    assert (info + end)[..|info|] == info && (info + end)[|info|..] == end;
    assert InfoLen(head) == |info|;
  }

  lemma EndByParts(head: Head, info: seq<byte>, dle2: byte, etx: byte, cks: byte, rest: seq<byte>)
    ensures TakeEnd(head, info, [dle2, etx, cks] + rest) ==
      if dle2 != DLE || etx != ETX then Taken(BadInfo(head[0], ERR_LENGTH), [cks] + rest)
      else if cks != Cks(STX, head, DLE, ETX, info) then Taken(BadInfo(head[0], ERR_CKS), rest)
      else Taken(GotInfo(head, info), rest)
  {
    var end := [dle2, etx, cks] + rest;
    assert end[2..] == [cks] + rest;
    assert ([cks] + rest)[1..] == rest;
  }

  /** Reading a frame body whose length field is right, whatever its last three
      bytes; after a wrong trailer the third of them stays on the line. */
  lemma {:induction false} TakeByParts(head: Head, info: seq<byte>, dle2: byte, etx: byte, cks: byte, rest: seq<byte>)
    requires InfoFrame(head, info).WellFormed()
    ensures TakeInfo(head + (info + ([dle2, etx, cks] + rest))) ==
      if dle2 != DLE || etx != ETX then Taken(BadInfo(head[0], ERR_LENGTH), [cks] + rest)
      else if cks != Cks(STX, head, DLE, ETX, info) then Taken(BadInfo(head[0], ERR_CKS), rest)
      else Taken(GotInfo(head, info), rest)
  {
    InfoLeadsToEnd(head, info, [dle2, etx, cks] + rest);
    EndByParts(head, info, dle2, etx, cks, rest);
  }

  lemma {:induction false} InfoIsTaken(head: Head, info: seq<byte>, rest: seq<byte>)
    requires InfoFrame(head, info).WellFormed()
    ensures TakeInfo(Body(InfoFrame(head, info)) + rest) == Taken(GotInfo(head, info), rest)
  {
    var cks := Cks(STX, head, DLE, ETX, info);
    TakeByParts(head, info, DLE, ETX, cks, rest);
    Parts(head, info, [DLE, ETX, cks], rest);
  }

  lemma {:induction false} BodyIsTaken(f: Frame, rest: seq<byte>)
    requires f.WellFormed()
    ensures Take(Kind(f), Body(f) + rest) == Taken(f.Meaning(), rest)
  {
    var input := Body(f) + rest;
    match f
    case InfoFrame(head, info) => {
      InfoIsTaken(head, info, rest);
    }
    case AckFrame(head) => {
      assert input[..HEAD] == head && input[6..] == rest;
    }
    case NakFrame(head, code) => {
      assert input[..HEAD] == head && input[7..] == rest;
    }
  }

  lemma {:induction false} FrameIsHeard(f: Frame, rest: seq<byte>)
    requires f.WellFormed()
    ensures Receive(f.Bytes() + rest, false) == [f.Meaning()] + Receive(rest, false)
  {
    BytesAre(f, rest);
    BodyIsTaken(f, rest);
    StartIsSeen(Kind(f), Body(f) + rest);
  }

  /** A frame and the noise on the line before it. */
  datatype Sent = Sent(noise: seq<byte>, frame: Frame)

  function Line(sent: seq<Sent>): seq<byte> {
    if sent == [] then [] else sent[0].noise + (sent[0].frame.Bytes() + Line(sent[1..]))
  }

  function Meanings(sent: seq<Sent>): seq<Heard>
    requires forall i | 0 <= i < |sent| :: sent[i].frame.WellFormed()
  {
    if sent == [] then [] else [sent[0].frame.Meaning()] + Meanings(sent[1..])
  }

  /** Any frames in any order, with quiet noise before each and at the end, are
      heard exactly as printed, in their order, with no checksum refused. */
  lemma {:induction false} RoundTrip(sent: seq<Sent>, tail: seq<byte>)
    requires forall i | 0 <= i < |sent| :: sent[i].frame.WellFormed() && Quiet(sent[i].noise)
    requires Quiet(tail)
    ensures Receive(Line(sent) + tail, false) == Meanings(sent)
    decreases |sent|
  {
    if sent == [] {
      NoiseIsSkipped(tail, false, []);
      assert Line(sent) + tail == tail + [];
    } else {
      var rest := Line(sent[1..]) + tail;
      RoundTrip(sent[1..], tail);
      Regroup(sent[0].noise, sent[0].frame.Bytes(), Line(sent[1..]), tail);
      NoiseIsSkipped(sent[0].noise, false, sent[0].frame.Bytes() + rest);
      FrameIsHeard(sent[0].frame, rest);
    }
  }

  /** Noise without a frame start either lets the next frame through or, if it
      ends in the middle of an escape, swallows its first byte: the loop then
      goes on inside the frame as if that were noise. */
  lemma {:induction false} NoiseBeforeFrame(noise: seq<byte>, f: Frame, rest: seq<byte>)
    requires NoStart(noise, false) && f.WellFormed()
    ensures Receive(noise + (f.Bytes() + rest), false) ==
      if Escaped(noise, false) then Receive(Body(f) + rest, false) else [f.Meaning()] + Receive(rest, false)
  {
    NoiseIsSkipped(noise, false, f.Bytes() + rest);
    if Escaped(noise, false) {
      BytesAre(f, rest);
      StartIsSwallowed(Kind(f), Body(f) + rest);
    } else {
      FrameIsHeard(f, rest);
    }
  }

  /** So a stray DLE right before an acknowledgement loses it. */
  lemma StrayDleLosesFrame()
    ensures var f := AckFrame(MakeHead(1, ADDR, ADDR, 0, 8));
      f.WellFormed() && NoStart([DLE], false) && Receive([DLE] + f.Bytes(), false) == []
  {
    var f := AckFrame(MakeHead(1, ADDR, ADDR, 0, 8));
    var head: Head := f.head;
    var cks := Cks(ACK, head, 0, 0, []);
    NoiseBeforeFrame([DLE], f, []);
    assert [DLE] + f.Bytes() == [DLE] + (f.Bytes() + []);
    WithoutDleIsQuiet(head);
    NoiseIsSkipped(head, false, [cks]);
    assert Body(f) + [] == head + [cks];
  }

  // ---------------------------------------------------------- nothing is made up

  lemma AcceptedParts(input: seq<byte>, head: Head, info: seq<byte>, rest: seq<byte>)
    requires TakeInfo(input) == Taken(GotInfo(head, info), rest)
    ensures InfoFrame(head, info).WellFormed()
    ensures input == head + (info + ([DLE, ETX, Cks(STX, head, DLE, ETX, info)] + rest))
  {
    var behind, n := input[HEAD..], InfoLen(head);
    LengthFits(head);
    EndIsTrailer(head, info, behind[n..], rest);
    Split(input, HEAD);
    Split(behind, n);
  }

  lemma Split(s: seq<byte>, k: nat)
    ensures k <= |s| ==> s == s[..k] + s[k..]
  {
  }

  /** The receiver accepts an information frame exactly when the bytes are those
      that printing it gives. */
  lemma {:induction false} AcceptedIffPrinted(input: seq<byte>, head: Head, info: seq<byte>, rest: seq<byte>)
    ensures TakeInfo(input) == Taken(GotInfo(head, info), rest) <==>
      InfoFrame(head, info).WellFormed() && input == Body(InfoFrame(head, info)) + rest
  {
    Parts(head, info, [DLE, ETX, Cks(STX, head, DLE, ETX, info)], rest);
    if TakeInfo(input) == Taken(GotInfo(head, info), rest) {
      AcceptedParts(input, head, info, rest);
    } else if InfoFrame(head, info).WellFormed() && input == Body(InfoFrame(head, info)) + rest {
      InfoIsTaken(head, info, rest);
    }
  }

  lemma EndIsTrailer(head: Head, info: seq<byte>, input: seq<byte>, rest: seq<byte>)
    requires TakeEnd(head, info, input) == Taken(GotInfo(head, info), rest)
    ensures input == [DLE, ETX, Cks(STX, head, DLE, ETX, info)] + rest
  {
  }

  lemma LengthFits(head: Head)
    requires InfoLen(head) <= MAX_PAYLOAD_LEN
    ensures PacketLen(head) == InfoLen(head) + HEADER_LEN
  {
  }

  /** A frame of that content stands in the input at that place. */
  predicate StandsAt(f: Frame, input: seq<byte>, at: nat) {
    at <= |input| && f.Bytes() <= input[at..]
  }

  lemma StandsFurther(f: Frame, input: seq<byte>, skip: nat, at: nat)
    requires skip <= |input| && StandsAt(f, input[skip..], at)
    ensures StandsAt(f, input, at + skip)
  {
    assert input[skip..][at..] == input[at + skip..];
  }

  /** Bytes that are no start of a frame lead on to the next. */
  lemma {:induction false} NoiseLeadsOn(input: seq<byte>)
    requires input != []
    ensures input[0] != DLE ==> Receive(input, false) == Receive(input[1..], false)
    ensures |input| > 1 && input[0] == DLE && !Starts(input[1]) ==> Receive(input, false) == Receive(input[2..], false)
    ensures |input| == 1 ==> Receive(input, false) == []
  {
    assert |input| > 1 ==> input[1..][1..] == input[2..];
  }

  lemma {:induction false} FirstWasPrinted(kind: byte, body: seq<byte>, rest: seq<byte>, f: Frame)
    requires Starts(kind) && f.InfoFrame? && Take(kind, body) == Taken(GotInfo(f.head, f.info), rest)
    ensures f.WellFormed() && StandsAt(f, [DLE, kind] + body, 0)
  {
    assert kind == STX;
    AcceptedIffPrinted(body, f.head, f.info, rest);
    BytesAre(f, rest);
    var input := [DLE, kind] + body;
    assert input[0..] == input == f.Bytes() + rest;
  }

  lemma RestIsSuffix(kind: byte, input: seq<byte>)
    requires Starts(kind)
    ensures var r := Take(kind, input); r.Taken? ==> r.rest == input[|input| - |r.rest|..]
  {
  }

  ghost predicate IsPrintedAt(h: Heard, input: seq<byte>, at: nat) {
    h.GotInfo? ==> InfoFrame(h.head, h.info).WellFormed() && StandsAt(InfoFrame(h.head, h.info), input, at)
  }

  /** What the loop makes of the first bytes: nothing, or one thing heard. */
  lemma {:induction false} ReceiveFirst(input: seq<byte>) returns (skip: nat, first: seq<Heard>)
    requires input != []
    ensures 0 < skip <= |input| && |first| <= 1
    ensures Receive(input, false) == first + Receive(input[skip..], false)
    ensures first != [] ==> IsPrintedAt(first[0], input, 0)
  {
    NoiseLeadsOn(input);
    if input[0] != DLE {
      skip, first := 1, [];
    } else if |input| == 1 {
      skip, first := 1, [];
    } else if !Starts(input[1]) {
      skip, first := 2, [];
    } else {
      skip, first := FrameFirst(input[1], input[2..]);
      assert input == [DLE, input[1]] + input[2..];
    }
  }

  lemma {:induction false} FrameFirst(kind: byte, body: seq<byte>) returns (skip: nat, first: seq<Heard>)
    requires Starts(kind)
    ensures var input := [DLE, kind] + body;
      && 0 < skip <= |input| && |first| <= 1
      && Receive(input, false) == first + Receive(input[skip..], false)
      && (first != [] ==> IsPrintedAt(first[0], input, 0))
  {
    var input := [DLE, kind] + body;
    StartIsSeen(kind, body);
    match Take(kind, body)
    case Blocked => {
      skip, first := |input|, [];
    }
    case Taken(heard, rest) => {
      skip, first := |input| - |rest|, [heard];
      RestIsSuffix(kind, body);
      assert input[skip..] == rest;
      if heard.GotInfo? {
        FirstWasPrinted(kind, body, rest, InfoFrame(heard.head, heard.info));
      }
    }
  }

  /** Over any stream whatever, each information frame that the loop accepts is
      printed somewhere in the stream. */
  lemma {:induction false} HeardWasPrinted(input: seq<byte>, k: nat) returns (at: nat)
    requires k < |Receive(input, false)|
    ensures IsPrintedAt(Receive(input, false)[k], input, at)
    decreases |input|
  {
    var skip, first := ReceiveFirst(input);
    if k < |first| {
      at := 0;
    } else {
      var h := Receive(input[skip..], false)[k - |first|];
      at := HeardWasPrinted(input[skip..], k - |first|);
      if h.GotInfo? {
        StandsFurther(InfoFrame(h.head, h.info), input, skip, at);
      }
      at := at + skip;
    }
  }

  // ------------------------------------------------------------ damaged frames

  /** The same frame with one byte of its head or information changed. */
  function Damaged(f: Frame, k: nat, b: byte): Frame
    requires f.InfoFrame? && k < HEAD + |f.info|
  {
    if k < HEAD then InfoFrame(f.head[k := b], f.info) else InfoFrame(f.head, f.info[k - HEAD := b])
  }

  lemma {:induction false} DamageChangesCks(f: Frame, k: nat, b: byte)
    requires f.InfoFrame? && k < HEAD + |f.info| && b != (f.head + f.info)[k]
    ensures var d := Damaged(f, k, b);
      Cks(STX, d.head, DLE, ETX, d.info) != Cks(STX, f.head, DLE, ETX, f.info)
  {
    if k < HEAD {
      var all := [DLE, STX] + f.head + [DLE, ETX];
      XorChanges(all, k + 2, b);
      assert all[k + 2 := b] == [DLE, STX] + f.head[k := b] + [DLE, ETX];
    } else {
      XorChanges(f.info, k - HEAD, b);
    }
  }

  /** A frame in which one byte other than the length and the trailer arrives
      wrong is refused for its checksum, and the loop goes on right behind it. */
  lemma {:induction false} DamageIsRefused(f: Frame, k: nat, b: byte, rest: seq<byte>)
    requires f.InfoFrame? && f.WellFormed() && k < HEAD + |f.info| && k != 3 && k != 4
    requires b != (f.head + f.info)[k]
    ensures Receive(f.Bytes()[k + 2 := b] + rest, false) ==
      [BadInfo(if k == 0 then b else f.head[0], ERR_CKS)] + Receive(rest, false)
  {
    var d, cks := Damaged(f, k, b), Cks(STX, f.head, DLE, ETX, f.info);
    DamageChangesCks(f, k, b);
    DamagedBytes(f, k, b, rest);
    TakeByParts(d.head, d.info, DLE, ETX, cks, rest);
    StartIsSeen(STX, d.head + (d.info + ([DLE, ETX, cks] + rest)));
  }

  lemma DamagedBytes(f: Frame, k: nat, b: byte, rest: seq<byte>)
    requires f.InfoFrame? && k < HEAD + |f.info|
    ensures var d, cks := Damaged(f, k, b), Cks(STX, f.head, DLE, ETX, f.info);
      f.Bytes()[k + 2 := b] + rest == [DLE, STX] + (d.head + (d.info + ([DLE, ETX, cks] + rest)))
  {
    var d, cks := Damaged(f, k, b), Cks(STX, f.head, DLE, ETX, f.info);
    assert (f.head + f.info)[k := b] == d.head + d.info;
    assert f.Bytes()[k + 2 := b] == [DLE, STX] + (d.head + d.info) + [DLE, ETX, cks];
  }

  /** If one of the two start bytes arrives wrong, and not as another start, the
      rest of the frame is read as noise. */
  lemma {:induction false} DamagedStartIsSkipped(f: Frame, k: nat, b: byte, rest: seq<byte>)
    requires k < 2 && b != f.Bytes()[k] && (k == 1 ==> !Starts(b))
    ensures Receive(f.Bytes()[k := b] + rest, false) == Receive(Body(f) + rest, false)
  {
    var body := Body(f) + rest;
    if k == 0 {
      DamagedFirst(f, b, rest);
      NoiseIsSkipped([b, Kind(f)], false, body);
    } else {
      DamagedSecond(f, b, rest);
      NoiseIsSkipped([DLE, b], false, body);
    }
  }

  lemma DamagedFirst(f: Frame, b: byte, rest: seq<byte>)
    ensures f.Bytes()[0 := b] + rest == [b, Kind(f)] + (Body(f) + rest)
  {
  }

  lemma DamagedSecond(f: Frame, b: byte, rest: seq<byte>)
    ensures f.Bytes()[1 := b] + rest == [DLE, b] + (Body(f) + rest)
  {
  }

  /** An acknowledgement, if its checksum is right. */
  function AckOr(head: Head, cks: byte): Heard {
    if cks == Cks(ACK, head, 0, 0, []) then GotAck(head[0]) else BadAck
  }

  function NakOr(head: Head, code: byte, cks: byte): Heard {
    if cks == Cks(NAK, head, 0, 0, [code]) then GotNak(code) else BadNak
  }

  /** What stands behind the head of a frame. */
  function Behind(f: Frame): (s: seq<byte>)
    ensures s != []
  {
    match f
    case InfoFrame(head, info) => info + [DLE, ETX, Cks(STX, head, DLE, ETX, info)]
    case AckFrame(head) => [Cks(ACK, head, 0, 0, [])]
    case NakFrame(head, code) => [code, Cks(NAK, head, 0, 0, [code])]
  }

  lemma HeadThenBehind(f: Frame, rest: seq<byte>)
    ensures var input, behind := Body(f) + rest, Behind(f) + rest;
      && input == f.head + behind && input[..HEAD] == f.head
      && input[6..] == behind[1..]
      && (|behind| > 1 ==> input[7..] == behind[2..])
  {
    assert Body(f) == f.head + Behind(f);
  }

  lemma TakenAsAck(f: Frame, rest: seq<byte>)
    ensures var behind := Behind(f) + rest; TakeAck(Body(f) + rest) == Taken(AckOr(f.head, behind[0]), behind[1..])
  {
    HeadThenBehind(f, rest);
  }

  lemma TakenAsNak(f: Frame, rest: seq<byte>)
    ensures var behind := Behind(f) + rest;
      TakeNak(Body(f) + rest)
      == if |behind| == 1 then Blocked else Taken(NakOr(f.head, behind[0], behind[1]), behind[2..])
  {
    HeadThenBehind(f, rest);
  }

  lemma TakenAsInfo(f: Frame, rest: seq<byte>)
    requires PacketLen(f.head) < HEADER_LEN
    ensures TakeInfo(Body(f) + rest) == Taken(Overlong, [])
  {
    HeadThenBehind(f, rest);
    ShortIsOverlong(f.head, Behind(f) + rest);
  }

  lemma ShortIsOverlong(head: Head, behind: seq<byte>)
    requires PacketLen(head) < HEADER_LEN
    ensures TakeInfo(head + behind) == Taken(Overlong, [])
  {
    assert (head + behind)[..HEAD] == head;
    assert InfoLen(head) == PacketLen(head) - HEADER_LEN + 0x1_0000;
  }

  /** If its second byte arrives as the start of another kind of frame, what is heard
      is decided by the bytes behind the head.  As an acknowledgement or refusal it
      is refused, unless the byte in the place of the checksum happens to be right,
      and the loop goes on behind that byte; as an information frame one that is
      shorter than a header is overlong. */
  lemma {:induction false} MistakenStart(f: Frame, b: byte, rest: seq<byte>)
    requires Starts(b) && b != Kind(f)
    ensures var heard, behind := Receive(f.Bytes()[1 := b] + rest, false), Behind(f) + rest;
      && (b == ACK ==> heard == [AckOr(f.head, behind[0])] + Receive(behind[1..], false))
      && (b == NAK && |behind| == 1 ==> heard == [])
      && (b == NAK && |behind| > 1 ==> heard == [NakOr(f.head, behind[0], behind[1])] + Receive(behind[2..], false))
      && (b == STX && PacketLen(f.head) < HEADER_LEN ==> heard == [Overlong])
  {
    DamagedSecond(f, b, rest);
    StartIsSeen(b, Body(f) + rest);
    if b == ACK {
      TakenAsAck(f, rest);
    } else if b == NAK {
      TakenAsNak(f, rest);
    } else if PacketLen(f.head) < HEADER_LEN {
      TakenAsInfo(f, rest);
    }
  }

  /** One wrong byte behind the start of an acknowledgement or of a refusal: its
      checksum is refused, and the loop goes on right behind it. */
  lemma {:induction false} DamagedAnswerIsRefused(f: Frame, k: nat, b: byte, rest: seq<byte>)
    requires !f.InfoFrame? && k < |Body(f)| && b != Body(f)[k]
    ensures Receive(f.Bytes()[k + 2 := b] + rest, false) == [if f.AckFrame? then BadAck else BadNak] + Receive(rest, false)
  {
    DamagedBody(f, k, b, rest);
    StartIsSeen(Kind(f), Body(f)[k := b] + rest);
    match f
    case AckFrame(head) => DamagedAckIsTaken(head, k, b, rest);
    case NakFrame(head, code) => DamagedNakIsTaken(head, code, k, b, rest);
  }

  lemma DamagedBody(f: Frame, k: nat, b: byte, rest: seq<byte>)
    requires k < |Body(f)|
    ensures |f.Bytes()| == |Body(f)| + 2 && f.Bytes()[k + 2 := b] + rest == [DLE, Kind(f)] + (Body(f)[k := b] + rest)
  {
    assert f.Bytes() == [DLE, Kind(f)] + Body(f);
    Regrouped(DLE, Kind(f), Body(f), k, b, rest);
  }

  lemma Regrouped(x: byte, y: byte, body: seq<byte>, k: nat, b: byte, rest: seq<byte>)
    requires k < |body|
    ensures ([x, y] + body)[k + 2 := b] + rest == [x, y] + (body[k := b] + rest)
  {
  }

  lemma DamagedAckIsTaken(head: Head, k: nat, b: byte, rest: seq<byte>)
    requires k < HEAD + 1 && b != Body(AckFrame(head))[k]
    ensures TakeAck(Body(AckFrame(head))[k := b] + rest) == Taken(BadAck, rest)
  {
    var body := Body(AckFrame(head))[k := b];
    DamagedAck(head, k, b);
    assert (body + rest)[..HEAD] == body[..HEAD] && (body + rest)[6..] == rest;
  }

  lemma DamagedNakIsTaken(head: Head, code: byte, k: nat, b: byte, rest: seq<byte>)
    requires k < HEAD + 2 && b != Body(NakFrame(head, code))[k]
    ensures TakeNak(Body(NakFrame(head, code))[k := b] + rest) == Taken(BadNak, rest)
  {
    var body := Body(NakFrame(head, code))[k := b];
    DamagedNak(head, code, k, b);
    assert (body + rest)[..HEAD] == body[..HEAD] && (body + rest)[7..] == rest;
  }

  lemma {:induction false} DamagedAck(head: Head, k: nat, b: byte)
    requires k < HEAD + 1 && b != Body(AckFrame(head))[k]
    ensures var body := Body(AckFrame(head))[k := b]; body[5] != Cks(ACK, body[..HEAD], 0, 0, [])
  {
    var body := Body(AckFrame(head))[k := b];
    if k < HEAD {
      var all := [DLE, ACK] + head + [0, 0];
      XorChanges(all, k + 2, b);
      assert all[k + 2 := b] == [DLE, ACK] + head[k := b] + [0, 0];
      assert body[..HEAD] == head[k := b];
    } else {
      assert body[..HEAD] == head;
    }
  }

  lemma {:induction false} DamagedNak(head: Head, code: byte, k: nat, b: byte)
    requires k < HEAD + 2 && b != Body(NakFrame(head, code))[k]
    ensures var body := Body(NakFrame(head, code))[k := b]; body[6] != Cks(NAK, body[..HEAD], 0, 0, [body[5]])
  {
    var body := Body(NakFrame(head, code))[k := b];
    if k < HEAD {
      var all := [DLE, NAK] + head + [0, 0];
      XorChanges(all, k + 2, b);
      assert all[k + 2 := b] == [DLE, NAK] + head[k := b] + [0, 0];
      assert body[..HEAD] == head[k := b];
    } else {
      assert body[..HEAD] == head;
      assert [code][1..] == [] && [b][1..] == [];
    }
  }

  /** A wrong checksum byte is refused as well, and so is a wrong trailer, though
      for the length; then the checksum byte stays on the line and the loop takes
      it for the first byte of what follows. */
  lemma {:induction false} WrongEndIsRefused(f: Frame, dle2: byte, etx: byte, cks: byte, rest: seq<byte>)
    requires f.InfoFrame? && f.WellFormed()
    requires [dle2, etx, cks] != [DLE, ETX, Cks(STX, f.head, DLE, ETX, f.info)]
    ensures Receive([DLE, STX] + (f.head + (f.info + ([dle2, etx, cks] + rest))), false) ==
      if dle2 == DLE && etx == ETX then [BadInfo(f.head[0], ERR_CKS)] + Receive(rest, false)
      else [BadInfo(f.head[0], ERR_LENGTH)] + Receive(rest, cks == DLE)
  {
    TakeByParts(f.head, f.info, dle2, etx, cks, rest);
    StartIsSeen(STX, f.head + (f.info + ([dle2, etx, cks] + rest)));
    assert ([cks] + rest)[1..] == rest;
  }

  // ---------------------------------------------------------------- the answers

  /** What the receiver writes: an acknowledgement with the address of the frame,
      or a refusal with the broadcast address. */
  function Answer(h: Heard): seq<byte>
  {
    match h
    case GotInfo(head, _) => AckFrame(MakeHead(head[0], head[1], head[2], 0, 8)).Bytes()
    case BadInfo(num, error) => NakFrame(MakeHead(num, ADDR, ADDR, 0, 9), error).Bytes()
    case _ => []
  }

  function Answers(heard: seq<Heard>): seq<byte> {
    if heard == [] then [] else Answers(heard[..|heard| - 1]) + Answer(heard[|heard| - 1])
  }

  lemma AnswersSnoc(heard: seq<Heard>, first: seq<Heard>)
    requires |first| <= 1
    ensures Answers(heard + first) == Answers(heard) + if first == [] then [] else Answer(first[0])
  {
    if first == [] {
      assert heard + first == heard;
    } else {
      assert (heard + first)[..|heard|] == heard;
    }
  }

  /** The other side hears from the answer which frame was accepted or what was
      wrong with it. */
  lemma {:induction false} AnswerIsHeard(h: Heard, rest: seq<byte>)
    ensures h.GotInfo? ==> Receive(Answer(h) + rest, false) == [GotAck(h.head[0])] + Receive(rest, false)
    ensures h.BadInfo? ==> Receive(Answer(h) + rest, false) == [GotNak(h.error)] + Receive(rest, false)
  {
    match h
    case GotInfo(head, _) => {
      FrameIsHeard(AckFrame(MakeHead(head[0], head[1], head[2], 0, 8)), rest);
    }
    case BadInfo(num, error) => {
      FrameIsHeard(NakFrame(MakeHead(num, ADDR, ADDR, 0, 9), error), rest);
    }
    case _ => {
    }
  }

  // ------------------------------------------------------------- what is on the line

  /** Over the bytes of any frame, its checksum included, the exclusive or is zero. */
  lemma FrameXorsToZero(f: Frame)
    ensures Xor(f.Bytes()) == 0
  {
    match f
    case InfoFrame(head, info) => InfoXorsToZero(head, info);
    case AckFrame(head) => ShortXorsToZero(ACK, head, []);
    case NakFrame(head, code) => ShortXorsToZero(NAK, head, [code]);
  }

  lemma XorOne(b: byte)
    ensures Xor([b]) == b
  {
    assert [b][1..] == [];
  }

  lemma InfoXorsToZero(head: Head, info: seq<byte>)
    ensures Xor(InfoFrame(head, info).Bytes()) == 0
  {
    var front, sum := [DLE, STX] + head, Cks(STX, head, DLE, ETX, info);
    assert InfoFrame(head, info).Bytes() == front + info + [DLE, ETX] + [sum];
    XorAppend(front + info + [DLE, ETX], [sum]);
    XorAppend(front + info, [DLE, ETX]);
    XorAppend(front, info);
    XorAppend(front, [DLE, ETX]);
    XorOne(sum);
    Cancels(Xor(front), Xor(info), Xor([DLE, ETX]));
  }

  lemma ShortXorsToZero(kind: byte, head: Head, code: seq<byte>)
    ensures Xor([DLE, kind] + head + code + [Cks(kind, head, 0, 0, code)]) == 0
    ensures code == [] ==>
              [DLE, kind] + head + code + [Cks(kind, head, 0, 0, code)] == [DLE, kind] + head + [Cks(kind, head, 0, 0, [])]
    ensures |code| == 1 ==>
              [DLE, kind] + head + code + [Cks(kind, head, 0, 0, code)] ==
                        [DLE, kind] + head + [code[0], Cks(kind, head, 0, 0, code)]
  {
    var front, sum := [DLE, kind] + head, Cks(kind, head, 0, 0, code);
    XorAppend(front + code, [sum]);
    XorAppend(front, code);
    XorAppend(front, [0, 0]);
    assert Xor([0, 0]) == 0 by {
      assert [0 as byte, 0][1..] == [0];
      XorOne(0);
    }
    XorOne(sum);
    Cancels(Xor(front), Xor(code), 0);
  }

  lemma Cancels(a: byte, b: byte, c: byte)
    ensures a ^ b ^ c ^ (a ^ c ^ b) == 0
    ensures a ^ b ^ (a ^ c ^ b) == c
  {
  }

  /** A well-formed information frame and the answers announce their own length, high
      byte first. */
  lemma LengthsAreTrue(f: Frame, h: Heard)
    ensures f.InfoFrame? && f.WellFormed() ==> f.head[3] as nat * 256 + f.head[4] as nat == |f.Bytes()|
    ensures h.GotInfo? || h.BadInfo? ==> |Answer(h)| > 6 && Answer(h)[5] as nat * 256 + Answer(h)[6] as nat == |Answer(h)|
  {
  }

  lemma Front(a: seq<byte>, b: seq<byte>)
    ensures (a + b)[..|a|] == a
  {
  }

  /** An acknowledgement goes to the address of the frame and carries its number, and its
      bytes add up to zero. */
  lemma AckIs(h: Heard)
    requires h.GotInfo?
    ensures Answer(h)[..7] == [0xAA, 0xDD, h.head[0], h.head[1], h.head[2], 0, 8] && |Answer(h)| == 8
    ensures Xor(Answer(h)) == 0
  {
    var head := MakeHead(h.head[0], h.head[1], h.head[2], 0, 8);
    assert head == [h.head[0], h.head[1], h.head[2], 0, 8];
    assert Answer(h) == AckFrame(head).Bytes() == [0xAA, 0xDD] + head + [Cks(ACK, head, 0, 0, [])];
    Front([0xAA, 0xDD] + head, [Cks(ACK, head, 0, 0, [])]);
    assert [0xAA, 0xDD] + head == [0xAA, 0xDD, h.head[0], h.head[1], h.head[2], 0, 8];
    FrameXorsToZero(AckFrame(head));
  }

  /** A refusal carries the number of the frame and the code, goes to all, and its bytes
      add up to zero. */
  lemma NakIs(h: Heard)
    requires h.BadInfo?
    ensures Answer(h)[..8] == [0xAA, 0xEE, h.num, 0xFF, 0xFF, 0, 9, h.error] && |Answer(h)| == 9
    ensures Xor(Answer(h)) == 0
  {
    var head := MakeHead(h.num, ADDR, ADDR, 0, 9);
    assert head == [h.num, 0xFF, 0xFF, 0, 9];
    assert Answer(h) == NakFrame(head, h.error).Bytes()
                     == [0xAA, 0xEE] + head + [h.error, Cks(NAK, head, 0, 0, [h.error])];
    Front([0xAA, 0xEE] + head + [h.error], [Cks(NAK, head, 0, 0, [h.error])]);
    assert Answer(h) == [0xAA, 0xEE] + head + [h.error] + [Cks(NAK, head, 0, 0, [h.error])];
    assert [0xAA, 0xEE] + head + [h.error] == [0xAA, 0xEE, h.num, 0xFF, 0xFF, 0, 9, h.error];
    FrameXorsToZero(NakFrame(head, h.error));
  }

  /** Nothing else is answered. */
  lemma AnsweredIff(h: Heard)
    ensures Answer(h) != [] <==> h.GotInfo? || h.BadInfo?
  {
    match h
    case GotInfo(_, _) => AckIs(h);
    case BadInfo(_, _) => NakIs(h);
    case _ =>
  }
}
