/** The packet buffer and the two ends of the serial line as the source works them:
    fields and a byte buffer filled in place, checksum and copy loops, and the
    receive loop with its chunked reads. */
module SignalPort {
  import opened Frames

  const VMIN_LEN := 20

  /** The copy loop of the printer; `done` is what stands before the place. */
  method Copy(output: array<byte>, ghost done: seq<byte>, at: nat, bytes: seq<byte>)
    requires at + |bytes| <= output.Length && output[..at] == done
    modifies output
    ensures output[..at + |bytes|] == done + bytes
  {
    var i := 0;
    while i < |bytes|
      invariant i <= |bytes| && output[..at + i] == done + bytes[..i]
    {
      output[at + i] := bytes[i];
      i := i + 1;
    }
    assert bytes[..i] == bytes;
  }

  method Assemble(packetLen: nat, front: seq<byte>, data: seq<byte>, back: seq<byte>, sum: byte)
    returns (output: array<byte>)
    requires packetLen == |front| + |data| + |back| + 1
    ensures fresh(output) && output[..] == front + data + back + [sum]
  {
    output := new byte[packetLen];
    Copy(output, [], 0, front);
    Copy(output, front, |front|, data);
    Copy(output, front + data, packetLen - 1 - |back|, back);
    output[packetLen - 1] := sum;
    assert output[..packetLen - 1] == front + data + back;
  }

  lemma Grouped<T>(a: seq<T>, b: seq<T>, c: seq<T>)
    ensures a + (b + c) == a + b + c
  {
  }

  class SignalPacket {
    var cks: byte
    var dle1: byte
    var kind: byte
    var num: byte
    var addr0: byte
    var addr1: byte
    var len0: byte
    var len1: byte
    var dle2: byte
    var etx: byte
    const info: array<byte>

    ghost predicate Valid()
      reads this
    {
      info.Length == MAX_PAYLOAD_LEN && dle1 == DLE
    }

    function Head(): Frames.Head
      reads this
    {
      MakeHead(num, addr0, addr1, len0, len1)
    }

    /** The nine bytes in front of the information. */
    function Fields(): seq<byte>
      reads this
    {
      [dle1, kind, num, addr0, addr1, len0, len1, dle2, etx]
    }

    constructor ()
      ensures Valid() && fresh(info)
    {
      info := new byte[MAX_PAYLOAD_LEN](_ => 0);
      cks, dle1, kind, num, addr0, addr1, len0, len1, dle2, etx := 0, DLE, 0, 0, 0, 0, 0, 0, 0, 0;
    }

    /** check_sum: one loop over the fields, one over the information. */
    method CheckSum(infoLen: nat) returns (sum: byte)
      requires Valid() && infoLen <= info.Length
      ensures sum == Cks(kind, Head(), dle2, etx, info[..infoLen])
    {
      var fields := Fields();
      var header: byte, rest: byte := 0, 0;
      var i := 0;
      while i < 9
        invariant i <= 9 && header == Xor(fields[..i])
      {
        header := header ^ fields[i];
        XorAppend(fields[..i], [fields[i]]);
        assert fields[..i + 1] == fields[..i] + [fields[i]];
        i := i + 1;
      }
      i := 0;
      while i < infoLen
        invariant i <= infoLen && rest == Xor(info[..i])
      {
        rest := rest ^ info[i];
        XorAppend(info[..i], [info[i]]);
        assert info[..i + 1] == info[..i] + [info[i]];
        i := i + 1;
      }
      assert fields[..9] == [DLE, kind] + Head() + [dle2, etx];
      sum := header ^ rest;
    }

    /** The information that the length field announces. */
    ghost function Info(): seq<byte>
      requires Valid() && HEADER_LEN <= PacketLen(Head()) <= MAX_PACKET_LEN
      reads this, info
    {
      info[..PacketLen(Head()) - HEADER_LEN]
    }

    /** TC_packet_tx: the bytes of the packet.  The length field is that of the
        whole frame. */
    method Print() returns (output: array<byte>)
      requires Valid() && HEADER_LEN <= PacketLen(Head()) <= MAX_PACKET_LEN
      ensures fresh(output)
      ensures output[..] == [dle1, kind] + Head() + Info() + [dle2, etx, Cks(kind, Head(), dle2, etx, Info())]
      ensures kind == STX && dle2 == DLE && etx == ETX ==> output[..] == InfoFrame(Head(), Info()).Bytes()
    {
      var packetLen := PacketLen(Head());
      var infoLen := packetLen - HEADER_LEN;
      var fields := Fields();
      var data := info[..infoLen];
      var sum := CheckSum(infoLen);
      Whole(fields, data, sum);
      output := Assemble(packetLen, fields[..7], data, fields[7..], sum);
      InfoBytes(Head(), Info());
    }

    lemma Whole(fields: seq<byte>, data: seq<byte>, sum: byte)
      requires fields == Fields()
      ensures fields[..7] + data + fields[7..] + [sum] == [dle1, kind] + Head() + data + [dle2, etx, sum]
    {
      assert fields[..7] == [dle1, kind] + Head() && fields[7..] == [dle2, etx];
      assert [dle2, etx] + [sum] == [dle2, etx, sum];
    }

    method Clear()
      modifies this`dle2, this`etx
      ensures dle2 == 0 && etx == 0
    {
      dle2, etx := 0, 0;
    }

    /** The acknowledgement of what is in the packet, made in the packet. */
    method MakeAck() returns (output: seq<byte>)
      requires Valid()
      modifies this
      ensures Valid() && num == old(num) && output == AckFrame(MakeHead(num, old(addr0), old(addr1), 0, 8)).Bytes()
    {
      kind := ACK;
      len0, len1 := 0, 8;
      Clear();
      var sum := CheckSum(0);
      assert info[..0] == [];
      output := [dle1, kind, num, addr0, addr1, len0, len1, sum];
    }

    method MakeNak(error: byte) returns (output: seq<byte>)
      requires Valid()
      modifies this, info
      ensures Valid() && num == old(num) && output == NakFrame(MakeHead(num, ADDR, ADDR, 0, 9), error).Bytes()
    {
      kind := NAK;
      addr0, addr1 := ADDR, ADDR;
      len0, len1 := 0, 9;
      Clear();
      info[0] := error;
      var sum := CheckSum(1);
      assert info[..1] == [error];
      output := [dle1, kind, num, addr0, addr1, len0, len1, error, sum];
    }
  }

  /** The receiving end.  `input` is what has not been read yet, `written` what has
      been answered, `heard` what has been made of the input. */
  class Receiver {
    const packet: SignalPacket
    var input: seq<byte>
    var written: seq<byte>
    ghost var heard: seq<Heard>

    ghost predicate Valid()
      reads this, packet
    {
      packet.Valid()
    }

    constructor (input: seq<byte>)
      ensures Valid() && this.input == input && written == [] && heard == []
      ensures fresh(packet) && fresh(packet.info)
    {
      packet := new SignalPacket();
      this.input, written, heard := input, [], [];
    }

    /** A blocking read; not `ok` means that it waits for bytes that do not come. */
    method Read(n: nat) returns (ok: bool, bytes: seq<byte>)
      modifies this`input
      ensures ok <==> n <= old(|input|)
      ensures ok ==> bytes == old(input[..n]) && input == old(input[n..])
      ensures !ok ==> input == old(input)
    {
      ok, bytes := n <= |input|, [];
      if ok {
        bytes, input := input[..n], input[n..];
      }
    }

    method ReadHeader() returns (ok: bool)
      requires Valid()
      modifies this`input, packet
      ensures Valid() && packet.kind == old(packet.kind) && packet.dle2 == packet.etx == 0
      ensures ok <==> HEAD <= old(|input|)
      ensures ok ==> packet.Head() == old(input[..HEAD]) && input == old(input[HEAD..])
    {
      packet.Clear();
      var bytes;
      ok, bytes := Read(HEAD);
      if ok {
        packet.num, packet.addr0, packet.addr1 := bytes[0], bytes[1], bytes[2];
        packet.len0, packet.len1 := bytes[3], bytes[4];
      }
    }

    /** The information, at most twenty bytes at a time, is what one read of all
        of it would give. */
    method ReadInfo(infoLen: nat) returns (ok: bool)
      requires Valid() && infoLen <= MAX_PAYLOAD_LEN
      modifies this`input, packet.info
      ensures Valid() && (ok <==> infoLen <= old(|input|))
      ensures ok ==> packet.info[..infoLen] == old(input[..infoLen]) && input == old(input[infoLen..])
    {
      var index, bytes := 0, [];
      while index < infoLen
        invariant index <= infoLen && index <= old(|input|)
        invariant input == old(input[index..]) && packet.info[..index] == old(input[..index])
      {
        var less := infoLen - index;
        var size := if less < VMIN_LEN then less else VMIN_LEN;
        ok, bytes := Read(size);
        if !ok {
          return;
        }
        Copy(packet.info, packet.info[..index], index, bytes);
        index := index + size;
      }
      ok := true;
    }

    /** The checksum byte of an information frame, and the answer. */
    method FinishSum(infoLen: nat) returns (ok: bool)
      requires Valid() && packet.kind == STX && packet.dle2 == DLE && packet.etx == ETX && infoLen <= MAX_PAYLOAD_LEN
      modifies this, packet, packet.info
      ensures Valid() && Did(
        TakeSum(old(packet.Head()), old(packet.info[..infoLen]), old(input)), ok, old(heard), old(written))
    {
      var bytes, answer;
      ghost var head, data := packet.Head(), packet.info[..infoLen];
      ok, bytes := Read(1);
      if !ok {
        return;
      }
      packet.cks := bytes[0];
      var sum := packet.CheckSum(infoLen);
      if packet.cks != sum {
        answer := packet.MakeNak(ERR_CKS);
        heard := heard + [BadInfo(packet.num, ERR_CKS)];
      } else {
        answer := packet.MakeAck();
        heard := heard + [GotInfo(head, data)];
      }
      written := written + answer;
    }

    /** The end of an information frame: the two trailer bytes, and unless they are
        wrong the checksum; then the answer. */
    method Finish(infoLen: nat) returns (ok: bool)
      requires Valid() && packet.kind == STX && infoLen <= MAX_PAYLOAD_LEN
      modifies this, packet, packet.info
      ensures Valid() && Did(
        TakeEnd(old(packet.Head()), old(packet.info[..infoLen]), old(input)), ok, old(heard), old(written))
    {
      var bytes;
      ok, bytes := Read(2);
      if !ok {
        return;
      }
      packet.dle2, packet.etx := bytes[0], bytes[1];
      if packet.dle2 != DLE || packet.etx != ETX {
        var answer := packet.MakeNak(ERR_LENGTH);
        heard := heard + [BadInfo(packet.num, ERR_LENGTH)];
        written := written + answer;
      } else {
        ok := FinishSum(infoLen);
      }
    }

    /** The information and the end of a frame. */
    method RecvBody(infoLen: nat) returns (ok: bool)
      requires Valid() && packet.kind == STX && infoLen <= MAX_PAYLOAD_LEN
      modifies this, packet, packet.info
      ensures Valid() && Did(
        if old(|input|) < infoLen then Blocked
        else TakeEnd(old(packet.Head()), old(input[..infoLen]), old(input[infoLen..])),
        ok, old(heard), old(written))
    {
      ok := ReadInfo(infoLen);
      if ok {
        ok := Finish(infoLen);
      }
    }

    method RecvInfo() returns (ok: bool)
      requires Valid() && packet.kind == STX
      modifies this, packet, packet.info
      ensures Valid() && Did(TakeInfo(old(input)), ok, old(heard), old(written))
    {
      ok := ReadHeader();
      if !ok {
        return;
      }
      var infoLen := InfoLen(packet.Head());
      if infoLen > MAX_PAYLOAD_LEN {
        heard, input := heard + [Overlong], [];
        assert written == written + Answer(Overlong);
        return;
      }
      ok := RecvBody(infoLen);
    }

    /** What has been heard and answered when a read gave a frame, if it did. */
    ghost predicate Did(taken: Taken, ok: bool, heard0: seq<Heard>, written0: seq<byte>)
      reads this
    {
      match taken
      case Blocked => !ok && heard == heard0 && written == written0
      case Taken(h, rest) => ok && heard == heard0 + [h] && written == written0 + Answer(h) && input == rest
    }

    method RecvAck() returns (ok: bool)
      requires Valid() && packet.kind == ACK
      modifies this, packet
      ensures Valid() && Did(TakeAck(old(input)), ok, old(heard), old(written))
    {
      var bytes;
      ok := ReadHeader();
      if !ok {
        return;
      }
      ok, bytes := Read(1);
      if !ok {
        return;
      }
      packet.cks := bytes[0];
      var sum := packet.CheckSum(0);
      assert packet.info[..0] == [];
      heard := heard + [if packet.cks == sum then GotAck(packet.num) else BadAck];
    }

    method RecvNak() returns (ok: bool)
      requires Valid() && packet.kind == NAK
      modifies this, packet, packet.info
      ensures Valid() && Did(TakeNak(old(input)), ok, old(heard), old(written))
    {
      var bytes;
      ok := ReadHeader();
      if !ok {
        return;
      }
      ok, bytes := Read(1);
      if !ok {
        return;
      }
      packet.info[0] := bytes[0];
      ok, bytes := Read(1);
      if !ok {
        return;
      }
      packet.cks := bytes[0];
      var sum := packet.CheckSum(1);
      assert packet.info[..1] == [packet.info[0]];
      heard := heard + [if packet.cks == sum then GotNak(packet.info[0]) else BadNak];
    }

    method Dispatch(kind: byte) returns (ok: bool)
      requires Valid() && Starts(kind)
      modifies this, packet, packet.info
      ensures Valid() && Did(Take(kind, old(input)), ok, old(heard), old(written))
    {
      packet.kind := kind;
      if kind == STX {
        ok := RecvInfo();
      } else if kind == ACK {
        ok := RecvAck();
      } else {
        ok := RecvNak();
      }
    }

    /** One turn of the receive loop: reads a byte and what hangs on it. */
    method HearByte(escape: bool) returns (ok: bool, escaped: bool, ghost first: seq<Heard>)
      requires Valid() && input != []
      modifies this, packet, packet.info
      ensures Valid() && (ok ==> |input| < old(|input|)) && |first| <= 1
      ensures Receive(old(input), escape) == first + if ok then Receive(input, escaped) else []
      ensures heard == old(heard) + first
      ensures written == old(written) + if first == [] then [] else Answer(first[0])
    {
      var bytes;
      ok, bytes := Read(1);
      escaped, first := false, [];
      if bytes[0] == DLE && !escape {
        escaped := true;
      } else if escape && Starts(bytes[0]) {
        ghost var taken := Take(bytes[0], input);
        ok := Dispatch(bytes[0]);
        if taken.Taken? {
          first := [taken.heard];
        }
      }
    }

    /** Of the `whole` that is to be heard, `done` is heard and answered, and the
        rest of the input holds the rest. */
    ghost predicate OnTrack(whole: seq<Heard>, done: seq<Heard>, ok: bool, escape: bool,
                            heard0: seq<Heard>, written0: seq<byte>)
      reads this, packet
    {
      && Valid()
      && heard == heard0 + done
      && written == written0 + Answers(done)
      && whole == done + if ok then Receive(input, escape) else []
    }

    method Turn(escape: bool, ghost whole: seq<Heard>, ghost done: seq<Heard>,
                ghost heard0: seq<Heard>, ghost written0: seq<byte>)
      returns (ok: bool, escaped: bool, ghost more: seq<Heard>)
      requires OnTrack(whole, done, true, escape, heard0, written0) && input != []
      modifies this, packet, packet.info
      ensures OnTrack(whole, more, ok, escaped, heard0, written0) && (ok ==> |input| < old(|input|))
    {
      ghost var first;
      ok, escaped, first := HearByte(escape);
      more := done + first;
      AnswersSnoc(done, first);
      Grouped(heard0, done, first);
      Grouped(done, first, if ok then Receive(input, escaped) else []);
      Grouped(written0, Answers(done), if first == [] then [] else Answer(first[0]));
    }

    /** The receive loop, up to the point where it waits for more input: it hears
        what the input holds and writes the answers. */
    method Handle()
      requires Valid()
      modifies this, packet, packet.info
      ensures Valid() && heard == old(heard) + Receive(old(input), false)
      ensures written == old(written) + Answers(Receive(old(input), false))
    {
      var escape, ok := false, true;
      ghost var done: seq<Heard>, whole := [], Receive(input, false);
      while ok && input != []
        invariant OnTrack(whole, done, ok, escape, old(heard), old(written))
        decreases ok, |input|
      {
        ok, escape, done := Turn(escape, whole, done, old(heard), old(written));
      }
      assert whole == done;
    }
  }

  /** A packet set up for sending prints as the frame that the receiver expects. */
  lemma InfoBytes(head: Head, info: seq<byte>)
    ensures [DLE, STX] + head + info + [DLE, ETX, Cks(STX, head, DLE, ETX, info)] == InfoFrame(head, info).Bytes()
  {
  }
}
