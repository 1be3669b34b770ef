/** The loader as it runs: a memory array, a decoder, the transfer in progress and a
    UART, all updated in place. Each method is proved against the state machine of
    `Receive` and the loop of `ByteLoop`. */
module LoaderMachine {
  import opened Bytes
  import opened Outcomes
  import opened Frame
  import opened Message
  import opened Receive
  import opened LoaderSafety
  import opened Decoding
  import opened ByteLoop
  import Crc
  import Decoder
  import SetWay

  /** What is known of the image being received. */
  class Incoming {
    const header: ImageHeader
    var received: nat
    const crc: Crc.Crc32
    var verified: bool

    constructor (h: ImageHeader)
      ensures header == h && fresh(crc) && View() == Transfer(h, 0, 0xffff_ffff, false)
    {
      header := h;
      received := 0;
      crc := new Crc.Crc32();
      verified := false;
    }

    function View(): Transfer
      reads this, crc
    {
      Transfer(header, received, crc.state, verified)
    }
  }

  // --------------------------------------------------------------------- memory

  /** Volatile byte stores, one after the other. */
  method WriteImage(mem: array<byte>, base: nat, chunk: seq<byte>)
    requires base + |chunk| <= mem.Length
    modifies mem
    ensures mem[..] == Write(old(mem[..]), base, chunk)
  {
    ghost var was := mem[..];
    for i := 0 to |chunk|
      invariant forall k :: 0 <= k < |was| ==> mem[k] == if base <= k < base + i then chunk[k - base] else was[k]
    {
      mem[base + i] := chunk[i];
    }
    ghost var want := Write(was, base, chunk);
    hide Write;
    forall k | 0 <= k < |was| ensures mem[k] == want[k] {
      WriteAt(was, base, chunk, k);
    }
  }

  method ZeroBss(mem: array<byte>, start: nat, end: nat)
    requires start <= end <= mem.Length
    modifies mem
    ensures mem[..] == Zeroed(old(mem[..]), start, end)
  {
    ghost var was := mem[..];
    var addr := start;
    while addr < end
      invariant start <= addr <= end
      invariant mem[..] == was[..start] + Zeros(addr - start) + was[addr..]
    {
      mem[addr] := 0;
      addr := addr + 1;
      assert mem[..] == was[..start] + Zeros(addr - start) + was[addr..];
    }
  }

  // ------------------------------------------------------------------ cache lines

  /** Bytes in a line, from the low bits of the log in CTR_EL0. */
  function LineSize(log: nat): (n: nat)
    ensures n >= 4
  {
    if log == 0 then 4 else 2 * LineSize(log - 1)
  }

  function LineAt(first: nat, line: nat, i: nat): nat { first + i * line }

  /** Consecutive lines from the one at `first`, all starting below `end`, the last one
      reaching it. */
  predicate Lines(issued: seq<nat>, line: nat, first: nat, end: nat) {
    && (forall i :: 0 <= i < |issued| ==> issued[i] == LineAt(first, line, i) && issued[i] < end)
    && end <= LineAt(first, line, |issued|)
  }

  /** `addr & !(line - 1)` for a line size that is a power of two. */
  function Aligned(addr: nat, line: nat): (first: nat)
    requires line > 0
    ensures first <= addr
  {
    addr - addr % line
  }

  /** CTR_EL0 gives the line size as the log of its words; a line's address is the multiple
      of its size at or below. */
  lemma LineIs(addr: nat, log: nat)
    ensures LineSize(log) == 4 * SetWay.Pow2(log)
    ensures var first := Aligned(addr, LineSize(log));
      first % LineSize(log) == 0 && first <= addr < first + LineSize(log)
  {
    SizeIs(log);
    var n := LineSize(log);
    Quotient(addr, n);
  }

  lemma {:induction false} SizeIs(log: nat)
    ensures LineSize(log) == 4 * SetWay.Pow2(log)
  {
    if log > 0 { SizeIs(log - 1); }
  }

  lemma Quotient(n: nat, d: nat)
    requires d > 0
    ensures (n - n % d) % d == 0 && n % d < d
  {
    var q := n / d;
    assert n - n % d == q * d;
    OnlyQuotient(q * d, d, q);
    DivBounds(q * d, d);
  }

  method CleanDcache(start: nat, end: nat, log: nat) returns (issued: seq<nat>)
    ensures Lines(issued, LineSize(log), Aligned(start, LineSize(log)), end)
  {
    hide LineAt, Aligned, LineSize;
    var line := LineSize(log);
    ghost var first := Aligned(start, line);
    issued := [];
    var addr := Aligned(start, line);
    FirstLine(first, line);
    while addr < end
      invariant addr == LineAt(first, line, |issued|)
      invariant forall i :: 0 <= i < |issued| ==> issued[i] == LineAt(first, line, i) && issued[i] < end
      decreases end - addr
    {
      LineStep(first, line, |issued|);
      issued := issued + [addr];
      addr := addr + line;
    }
  }

  lemma FirstLine(first: nat, line: nat)
    ensures LineAt(first, line, 0) == first
  {}

  lemma LineStep(first: nat, line: nat, i: nat)
    ensures LineAt(first, line, i + 1) == LineAt(first, line, i) + line
  {}

  /** Every address of the range lies in exactly one of the lines. */
  lemma LinesCover(issued: seq<nat>, line: nat, first: nat, end: nat, a: nat) returns (i: nat)
    requires line > 0 && Lines(issued, line, first, end) && first <= a < end
    ensures i < |issued| && issued[i] <= a < issued[i] + line
    ensures forall j :: 0 <= j < |issued| && issued[j] <= a < issued[j] + line ==> j == i
  {
    i := (a - first) / line;
    DivBounds(a - first, line);
    forall j: nat | j < |issued| ensures issued[j] <= a < issued[j] + line <==> j == i {
      OnlyQuotient(a - first, line, j);
    }
    InRange(a - first, line, |issued|);
  }

  lemma InRange(n: nat, d: nat, count: nat)
    requires d > 0 && n < count * d
    ensures n / d < count
  {
    DivBounds(n, d);
    if count <= n / d {
      Multiples(count, n / d, d);
    }
  }

  lemma DivBounds(n: nat, d: nat)
    requires d > 0
    ensures n / d * d <= n < n / d * d + d
  {}

  lemma Multiples(a: nat, b: nat, d: nat)
    requires a <= b
    ensures a * d <= b * d
  {}

  lemma OnlyQuotient(n: nat, d: nat, j: nat)
    requires d > 0
    ensures j * d <= n < j * d + d <==> j == n / d
  {
    DivBounds(n, d);
    var q := n / d;
    if j < q {
      Multiples(j + 1, q, d);
      LineStep(0, d, j);
    } else if q < j {
      Multiples(q + 1, j, d);
      LineStep(0, d, q);
    }
  }

  // ------------------------------------------------------------------ the machine

  /** The frame for a packet, or nothing when it does not encode. */
  method Encoded(p: Packet) returns (bytes: seq<byte>)
    ensures bytes == OutBytes(Sends(p))
  {
    hide Encode;
    var buf := new byte[MAX_FRAME](_ => 0);
    var r := EncodeFrame(p.ty, p.payload, buf);
    match r {
      case Ok(n) =>
        assert buf[..n] == Encode(p.ty, p.payload);
        return buf[..n];
      case Err(_) =>
        return [];
    }
  }

  class Receiver {
    const board: Board
    /** Log of the data cache line size, from CTR_EL0. */
    const lineLog: nat
    const mem: array<byte>
    var decoder: Decoder.Decoder
    var transfer: Incoming?
    var lowPower: bool
    var contacted: bool
    /** Every byte put on the UART. */
    var tx: seq<byte>
    /** Every line cleaned. */
    var cleaned: seq<nat>
    ghost var out: seq<Out>

    function Live(): set<object>
      reads this
    {
      if transfer == null then {} else {transfer, transfer.crc}
    }

    ghost function View(): Loader
      reads this, mem, Live()
    {
      Loader(mem[..], if transfer == null then None else Some(transfer.View()), lowPower, contacted)
    }

    /** The lines cleaned are those of the header's footprint. */
    predicate CleanedFor(h: ImageHeader)
      reads this`cleaned
    {
      var size := LineSize(lineLog);
      Lines(cleaned, size, Aligned(h.loadAddr, size), h.loadAddr + h.memLen)
    }

    ghost predicate Valid()
      reads this, mem, Live(), decoder, decoder.buf
    {
      && mem != decoder.buf
      && decoder.Valid()
      && tx == BytesOf(out)
      && Inv(board, View())
    }

    /** The start of `run`: size the window, greet a host that may be listening. The
        memory is as the firmware left it, and reaches the window's end. */
    constructor (ram: Option<Ram>, loaderStart: u64, loaderEnd: u64, memory: array<byte>, log: nat)
      requires Detect(ram).windowMax <= memory.Length
      ensures Valid() && fresh(decoder) && fresh(decoder.buf) && mem == memory && Live() == {}
      ensures board == Board(Detect(ram), loaderStart, loaderEnd)
      ensures View() == Loader(memory[..], None, false, false)
      ensures out == Frames([SendReady(board.limits)]) && decoder.Abs() == Sync0
    {
      hide Detect, BytesOf, Frames, SendReady, Inv, Decoder.Decoder.Valid, Decoder.Decoder.Abs;
      board := Board(Detect(ram), loaderStart, loaderEnd);
      lineLog := log;
      mem := memory;
      decoder := new Decoder.Decoder();
      transfer := null;
      lowPower, contacted := false, false;
      tx, cleaned := [], [];
      out := [];
      new;
      NothingSent();
      IdleInv(board, memory[..]);
      Send(SendReady(board.limits));
      assert out == [] + Frames([SendReady(board.limits)]);
    }

    method Transmit(bytes: seq<byte>)
      modifies this`tx
      ensures tx == old(tx) + bytes
    {
      for i := 0 to |bytes|
        invariant tx == old(tx) + bytes[..i]
      {
        tx := tx + [bytes[i]];
        assert bytes[..i] + [bytes[i]] == bytes[..i + 1];
      }
      assert bytes[..|bytes|] == bytes;
    }

    /** Encodes and transmits one frame; one that does not encode is dropped. */
    method Send(p: Packet)
      requires tx == BytesOf(out)
      modifies this`tx, this`out
      ensures tx == BytesOf(out) && out == old(out) + Frames([p])
    {
      hide BytesOf, Frames, OutBytes;
      var frame := Encoded(p);
      Transmit(frame);
      AppendOut(out, p);
      out := out + [Sends(p)];
    }

    /** DATA: refused unless it is the next piece and fits; otherwise taken. */
    method HandleData(payload: seq<byte>)
      requires tx == BytesOf(out) && Inv(board, View())
      modifies this`tx, this`out, this`transfer, mem, Live()
      ensures var r := Receive.HandleData(board, old(View()), payload);
        View() == r.next && out == old(out) + Frames(r.replies)
      ensures tx == BytesOf(out) && Live() <= old(Live())
    {
      hide DataFrame.Decode, Crc.Raw, Crc.Xor, SendError, SendAck, Write, BytesOf, Frames;
      hide ValidateHeader, Receive.TakeChunk;
      if transfer == null {
        Send(SendError(ErrorCode.Unexpected, 0));
        return;
      }
      var d := DataFrame.Decode(payload);
      if d.Err? {
        Send(SendError(ErrorCode.BadLength, 0));
        return;
      }
      if d.value.offset != transfer.received {
        Send(SendError(ErrorCode.OffsetMismatch, transfer.received));
        return;
      }
      if d.value.offset + |d.value.chunk| > transfer.header.imageLen {
        Send(SendError(ErrorCode.BadLength, d.value.offset));
        return;
      }
      FootprintFits(board, View());
      TakeChunk(d.value.chunk);
    }

    /** Stores a chunk and folds it into the running CRC. */
    method Fold(chunk: seq<byte>)
      requires transfer != null
      requires transfer.header.loadAddr + transfer.received + |chunk| <= mem.Length
      modifies mem, transfer, transfer.crc
      ensures transfer.View() == old(transfer.View()).(
        received := old(transfer.received) + |chunk|, crc := Crc.Raw(old(transfer.crc.state), chunk))
      ensures mem[..] == Write(old(mem[..]), transfer.header.loadAddr + old(transfer.received), chunk)
    {
      hide Crc.Raw, Write;
      WriteImage(mem, transfer.header.loadAddr + transfer.received, chunk);
      transfer.crc.Update(chunk);
      transfer.received := transfer.received + |chunk|;
    }

    /** The end-to-end CRC check of a complete image. */
    method Settle()
      requires tx == BytesOf(out) && transfer != null && transfer.received < U32
      modifies this`tx, this`out, this`transfer, transfer
      ensures tx == BytesOf(out) && Live() <= old(Live()) && old(transfer).crc == old(transfer.crc)
      ensures var t, got := old(transfer.View()), Crc.Xor(old(transfer.crc.state), 0xffff_ffff);
        if got == t.header.imageCrc32 then
          && transfer == old(transfer) && transfer.View() == t.(verified := true)
          && out == old(out) + Frames([SendAck(t.received)])
        else transfer == null && out == old(out) + Frames([SendImageCrc(got)])
    {
      hide SendImageCrc, SendAck, BytesOf, Frames;
      var got := transfer.crc.Finalize();
      if got == transfer.header.imageCrc32 {
        transfer.verified := true;
        Send(SendAck(transfer.received));
      } else {
        Send(SendImageCrc(got));
        transfer := null;
      }
    }

    /** An in-order chunk that fits. */
    method TakeChunk(chunk: seq<byte>)
      requires tx == BytesOf(out) && transfer != null
      requires transfer.header.loadAddr + transfer.received + |chunk| <= mem.Length
      requires transfer.received + |chunk| <= transfer.header.imageLen
      modifies this`tx, this`out, this`transfer, mem, transfer, transfer.crc
      ensures var r := Receive.TakeChunk(old(View()), old(transfer.View()), chunk);
        View() == r.next && out == old(out) + Frames(r.replies)
      ensures tx == BytesOf(out) && Live() <= old(Live())
    {
      hide Crc.Raw, Crc.Xor, SendImageCrc, SendAck, Write, BytesOf, Frames;
      Fold(chunk);
      if transfer.received != transfer.header.imageLen {
        Send(SendAck(transfer.received));
      } else {
        Settle();
      }
    }

    method HandleMode(payload: seq<byte>)
      requires tx == BytesOf(out)
      modifies this`tx, this`out, this`lowPower
      ensures var r := Receive.HandleMode(board, old(View()), payload);
        View() == r.next && out == old(out) + Frames(r.replies)
      ensures tx == BytesOf(out)
    {
      hide SendError, SendReady, BytesOf, Frames, IdleBytes;
      if transfer != null {
        Send(SendError(ErrorCode.Unexpected, 0));
        return;
      }
      if payload == [] {
        Send(SendError(ErrorCode.BadLength, 0));
        return;
      }
      if payload[0] == MODE_LOW_POWER {
        lowPower := true;
        Send(Packet(FrameType.Idle, IdleBytes(LOW_POWER_HEARTBEAT_SECS)));
      } else if payload[0] == MODE_READY {
        lowPower := false;
        Send(SendReady(board.limits));
      } else {
        Send(SendError(ErrorCode.Unexpected, payload[0] as nat));
      }
    }

    method HandleHeader(payload: seq<byte>)
      requires tx == BytesOf(out)
      modifies this`tx, this`out, this`transfer
      ensures var r := Receive.HandleHeader(board, old(View()), payload);
        View() == r.next && out == old(out) + Frames(r.replies)
      ensures tx == BytesOf(out) && fresh(Live() - old(Live()))
    {
      hide SendError, SendAck, BytesOf, Frames, ImageHeader.FromBytes, ValidateHeader;
      var h := ImageHeader.FromBytes(payload);
      if h.Err? {
        Send(SendError(ErrorCode.BadLength, 0));
        return;
      }
      var refused := ValidateHeader(board, h.value);
      if refused.None? {
        transfer := new Incoming(h.value);
        Send(SendAck(0));
      } else {
        transfer := null;
        Send(SendError(refused.value, 0));
      }
    }

    /** BOOT: acknowledge, then the memory part of the jump: clear the BSS tail, and
        clean every line of the footprint. */
    method HandleBoot() returns (jump: Option<Jump>)
      requires tx == BytesOf(out) && Inv(board, View())
      modifies this`tx, this`out, this`cleaned, mem
      ensures var r := Receive.HandleBoot(board, old(View()));
        View() == r.next && out == old(out) + Frames(r.replies) && jump == r.jump
      ensures tx == BytesOf(out)
      ensures jump.Some? ==> CleanedFor(jump.value.header)
    {
      hide SendError, SendAck, BytesOf, Frames, ValidateHeader, Crc.Raw, Crc.Xor, Zeroed, Lines, Aligned, LineSize;
      if transfer == null || !transfer.verified {
        Send(SendError(ErrorCode.NoImage, 0));
        return None;
      }
      FootprintFits(board, View());
      Send(SendAck(transfer.received));
      var h := transfer.header;
      ZeroBss(mem, h.loadAddr + h.imageLen, h.loadAddr + h.memLen);
      cleaned := CleanDcache(h.loadAddr, h.loadAddr + h.memLen, lineLog);
      jump := Some(Jump(h.loadAddr + h.entryOff, h));
    }

    /** Dispatches one frame. */
    method HandleFrame(ty: FrameType, payload: seq<byte>) returns (jump: Option<Jump>)
      requires tx == BytesOf(out) && Inv(board, View())
      modifies this`tx, this`out, this`cleaned, this`transfer, this`lowPower, mem, Live()
      ensures var r := Receive.HandleFrame(board, old(View()), ty, payload);
        View() == r.next && out == old(out) + Frames(r.replies) && jump == r.jump
      ensures tx == BytesOf(out) && fresh(Live() - old(Live()))
      ensures jump.Some? ==> CleanedFor(jump.value.header)
    {
      hide SendError, SendReady, BytesOf, Frames, Inv, CleanedFor;
      hide Receive.HandleData, Receive.HandleHeader, Receive.HandleBoot, Receive.HandleMode;
      DataNeverJumps(board, View(), payload);
      HeaderChangesNothing(board, View(), payload);
      ModeNeverJumps(board, View(), payload);
      jump := None;
      match ty {
        case Hello =>
          transfer := null;
          lowPower := false;
          Send(SendReady(board.limits));
        case Mode =>
          HandleMode(payload);
        case Header =>
          HandleHeader(payload);
        case Data =>
          HandleData(payload);
        case Boot =>
          jump := HandleBoot();
        case Ready =>
          Send(SendError(ErrorCode.Unexpected, 0));
        case Ack =>
          Send(SendError(ErrorCode.Unexpected, 0));
        case Error =>
          Send(SendError(ErrorCode.Unexpected, 0));
        case Idle =>
          Send(SendError(ErrorCode.Unexpected, 0));
      }
    }

    method WriteLine(line: Out)
      requires tx == BytesOf(out)
      modifies this`tx, this`out
      ensures tx == BytesOf(out) && out == old(out) + [line]
    {
      hide OutBytes;
      Transmit(OutBytes(line));
      assert (out + [line])[..|out|] == out;
      out := out + [line];
    }

    /** What the loop has reached, as a value. */
    ghost function Now(jump: Option<Jump>): ByteLoop.Machine
      requires Valid()
      reads this, mem, Live(), decoder, decoder.buf
    {
      ByteLoop.Machine(View(), decoder.Abs(), out, jump)
    }

    /** Three silent seconds: give up, and be as good as new. */
    method GiveUp()
      requires Valid()
      modifies this`transfer, this`decoder, this`contacted, this`tx, this`out
      ensures Valid() && fresh(decoder) && fresh(decoder.buf) && Live() == {}
      ensures View() == old(View()).(transfer := None, contacted := false)
      ensures out == old(out) + Frames([SendReady(board.limits)]) && decoder.Abs() == Sync0
    {
      hide SendReady, BytesOf, Frames, TransferOk, Decoder.Decoder.Valid, Decoder.Decoder.Abs;
      transfer := null;
      decoder := new Decoder.Decoder();
      contacted := false;
      Send(SendReady(board.limits));
    }

    /** A decoder report is answered. */
    method Answer(r: Decoder.Decoded) returns (jump: Option<Jump>)
      requires Valid()
      modifies this`tx, this`out, this`cleaned, this`transfer, this`lowPower, this`contacted, mem, Live()
      ensures Valid() && decoder == old(decoder) && fresh(Live() - old(Live()))
      ensures r.Nothing? ==> View() == old(View()) && out == old(out) && jump == None
      ensures !r.Nothing? ==>
        var e := if r.Error? then Garbled(r.error) else Arrived(Packet(r.ty, old(decoder.CurrentPayload())));
        var x := React(board, old(View()), e);
        View() == x.next && out == old(out) + Frames(x.replies) && jump == x.jump
      ensures jump.Some? ==> CleanedFor(jump.value.header)
    {
      hide CleanedFor, SendError, BytesOf, Frames, Inv, Receive.HandleFrame, Decoder.Decoder.CurrentPayload;
      ghost var st := View();
      jump := None;
      match r {
        case Nothing =>
        case Error(e) =>
          ReactKeepsInv(board, st, Garbled(e));
          NothingSent();
          if contacted {
            Send(SendError(DecodeErrorCode(e), 0));
          }
          assert out + [] == out;
        case Frame(ty) =>
          var payload := decoder.CurrentPayload();
          ReactKeepsInv(board, st, Arrived(Packet(ty, payload)));
          ContactKeepsInv(board, st);
          contacted := true;
          assert View() == st.(contacted := true);
          jump := HandleFrame(ty, payload);
      }
    }

    method OnByte(b: byte) returns (jump: Option<Jump>)
      requires Valid()
      modifies this, mem, Live(), decoder, decoder.buf
      ensures Valid() && fresh(Live() - old(Live())) && decoder == old(decoder)
      ensures Now(jump) == Turn(board, old(Now(None)), Byte(b))
      ensures jump.Some? ==> CleanedFor(jump.value.header)
    {
      hide CleanedFor, React, BytesOf, Frames, Inv, Step, SendReady;
      ghost var m := Now(None);
      var r := decoder.Push(b);
      assert View() == m.st;
      jump := Answer(r);
      assert out + [] == out;
    }

    method OnSilence(expired: bool, beat: bool)
      requires Valid()
      modifies this, mem, Live(), decoder, decoder.buf
      ensures Valid() && fresh(Live() - old(Live()))
      ensures decoder == old(decoder) || (fresh(decoder) && fresh(decoder.buf))
      ensures Now(None) == Turn(board, old(Now(None)), Silence(expired, beat))
    {
      hide React, BytesOf, Frames, Inv, Step, SendReady, Decoder.Decoder.Valid;
      ghost var m := Now(None);
      if transfer != null && expired {
        ExpiredReacts(board, m.st);
        GiveUp();
      } else if lowPower {
        if beat {
          WriteLine(IdleLine);
        }
      } else if !contacted && beat {
        WriteLine(WaitingLine);
      }
      assert out + [] == out;
    }

    /** One turn of the receive loop. */
    method TakeTurn(i: Input) returns (jump: Option<Jump>)
      requires Valid()
      modifies this, mem, Live(), decoder, decoder.buf
      ensures Valid()
      ensures fresh(Live() - old(Live())) && (decoder == old(decoder) || (fresh(decoder) && fresh(decoder.buf)))
      ensures Now(jump) == Turn(board, old(Now(None)), i)
      ensures jump.Some? ==> CleanedFor(jump.value.header)
    {
      hide CleanedFor, Turn, Inv, Valid, Now;
      match i {
        case Byte(b) =>
          jump := OnByte(b);
        case Silence(expired, beat) =>
          OnSilence(expired, beat);
          jump := None;
      }
    }

    /** The receive loop over its inputs, until it jumps. */
    method Serve(inputs: seq<Input>) returns (jump: Option<Jump>)
      requires Valid()
      modifies this, mem, Live(), decoder, decoder.buf
      ensures Valid()
      ensures Now(jump) == Turns(board, old(Now(None)), inputs)
      ensures jump.Some? ==> CleanedFor(jump.value.header)
    {
      hide CleanedFor, Turns, Turn, Inv, Decoder.Decoder.Valid, View, BytesOf;
      ghost var m := Now(None);
      jump := None;
      var i := 0;
      assert inputs[0..] == inputs;
      while i < |inputs| && jump.None?
        invariant 0 <= i <= |inputs|
        invariant Valid()
        invariant Turns(board, Now(jump), inputs[i..]) == Turns(board, m, inputs)
        invariant fresh(Live() - old(Live())) && (jump.Some? ==> CleanedFor(jump.value.header))
        invariant decoder == old(decoder) || (fresh(decoder) && fresh(decoder.buf))
      {
        TurnsUnroll(board, Now(None), inputs, i);
        jump := TakeTurn(inputs[i]);
        i := i + 1;
      }
      TurnsEnd(board, Now(jump), inputs, i);
    }
  }

  /** After a jump every address of the footprint, tail included, lies in exactly one of the
      lines cleaned. */
  lemma FootprintCleaned(r: Receiver, h: ImageHeader, a: nat) returns (i: nat)
    requires r.CleanedFor(h) && InFootprint(h, a)
    ensures i < |r.cleaned| && r.cleaned[i] <= a < r.cleaned[i] + 4 * SetWay.Pow2(r.lineLog)
    ensures forall j :: 0 <= j < |r.cleaned| && r.cleaned[j] <= a < r.cleaned[j] + 4 * SetWay.Pow2(r.lineLog) ==> j == i
  {
    hide Lines, Aligned, LineSize;
    LineIs(h.loadAddr, r.lineLog);
    var size := LineSize(r.lineLog);
    i := LinesCover(r.cleaned, size, Aligned(h.loadAddr, size), h.loadAddr + h.memLen, a);
  }

  lemma ModeNeverJumps(b: Board, st: Loader, payload: seq<byte>)
    ensures Receive.HandleMode(b, st, payload).jump.None?
  {
    hide SendError, SendReady, IdleBytes;
  }

  lemma ExpiredReacts(b: Board, st: Loader)
    requires Inv(b, st) && st.transfer.Some?
    ensures React(b, st, Expired) == Reaction(st.(transfer := None, contacted := false), [SendReady(b.limits)], None)
  {
    hide SendReady, Inv;
  }

  lemma TurnsUnroll(b: Board, m: ByteLoop.Machine, inputs: seq<Input>, i: nat)
    requires Inv(b, m.st) && i < |inputs| && m.jump.None?
    ensures Inv(b, Turn(b, m, inputs[i]).st)
    ensures Turns(b, m, inputs[i..]) == Turns(b, Turn(b, m, inputs[i]), inputs[i + 1..])
  {
    hide Turn, Inv;
    TurnKeepsInv(b, m, inputs[i]);
    assert inputs[i..][1..] == inputs[i + 1..];
  }

  lemma TurnsEnd(b: Board, m: ByteLoop.Machine, inputs: seq<Input>, i: nat)
    requires Inv(b, m.st) && i <= |inputs| && (i == |inputs| || m.jump.Some?)
    ensures Turns(b, m, inputs[i..]) == m
  {}

  lemma IdleInv(b: Board, mem: seq<byte>)
    requires WINDOW_MIN < b.limits.windowMax <= |mem|
    ensures Inv(b, Loader(mem, None, false, false))
  {}

  lemma NothingSent()
    ensures BytesOf([]) == [] && Frames([]) == []
  {}

  lemma AppendOut(outs: seq<Out>, p: Packet)
    ensures BytesOf(outs + [Sends(p)]) == BytesOf(outs) + OutBytes(Sends(p))
    ensures outs + [Sends(p)] == outs + Frames([p])
  {
    hide Encode;
    var all := outs + [Sends(p)];
    assert all[..|all| - 1] == outs;
    assert [p][1..] == [];
    NothingSent();
    assert Frames([p]) == [Sends(p)] + Frames([p][1..]);
  }
}
