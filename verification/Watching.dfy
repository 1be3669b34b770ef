/** What an observer of the wire knows of the loader's memory: the chunks acknowledged
    since the last accepted HEADER are the image so far. */
module Watching {
  import opened Bytes
  import opened Outcomes
  import opened Frame
  import opened Message
  import opened Receive
  import opened LoaderSafety
  import opened Layout
  import opened Answers
  import Crc

  predicate Acked(r: Reaction) { |r.replies| == 1 && r.replies[0].ty == FrameType.Ack }

  /** An acknowledged HEADER starts afresh, an acknowledged DATA adds its chunk. */
  function Watch(seen: seq<byte>, e: Happening, r: Reaction): seq<byte> {
    if !e.Arrived? || !Acked(r) then seen
    else if e.packet.ty == FrameType.Header then []
    else if e.packet.ty == FrameType.Data && |e.packet.payload| >= 4 then seen + e.packet.payload[4..]
    else seen
  }

  /** What has been seen is what is stored. */
  ghost predicate Known(st: Loader, seen: seq<byte>) {
    st.transfer.Some? ==> seen == Prefix(st, st.transfer.value.received)
  }

  lemma ErrorNotAcked(r: Reaction, code: nat, detail: nat)
    requires AnswersError(r, code, detail)
    ensures !Acked(r)
  {}

  lemma AckAcked(r: Reaction, n: nat)
    requires AnswersAck(r, n)
    ensures Acked(r)
  {}

  lemma KnownUnmoved(st: Loader, r: Reaction, seen: seq<byte>)
    requires Unmoved(st, r) && Known(st, seen)
    ensures Known(r.next, seen)
  {}

  lemma WatchData(b: Board, st: Loader, payload: seq<byte>, seen: seq<byte>)
    requires Inv(b, st) && Known(st, seen)
    ensures var e := Gets(FrameType.Data, payload); Known(React(b, st, e).next, Watch(seen, e, React(b, st, e)))
  {
    hide Inv, React, LeAt, IsAck, IsError, AnswersAck, AnswersError, Unmoved, Known, StoredAt, Crc.Checksum;
    var r := React(b, st, Gets(FrameType.Data, payload));
    var off := Answers.OffsetOf(payload);
    DataRefused(b, st, payload, off);
    if st.transfer.None? {
      ErrorNotAcked(r, 5, 0);
      KnownUnmoved(st, r, seen);
    } else if |payload| < 4 {
      ErrorNotAcked(r, 3, 0);
      KnownUnmoved(st, r, seen);
    } else {
      var t := st.transfer.value;
      if LeAt(payload, 0, t.received, 4) { OneValue(payload, 0, off, t.received, 4); }
      if off != t.received {
        ErrorNotAcked(r, 10, t.received);
        KnownUnmoved(st, r, seen);
      } else if off + |payload| - 4 > t.header.imageLen {
        ErrorNotAcked(r, 3, off);
        KnownUnmoved(st, r, seen);
      } else {
        DataAccepted(b, st, payload);
        WatchPiece(st, payload[4..], r, seen);
      }
    }
  }

  lemma WatchPiece(st: Loader, chunk: seq<byte>, r: Reaction, seen: seq<byte>)
    requires st.transfer.Some? && Accepted(st, chunk, r) && Known(st, seen)
    ensures Known(r.next, if Acked(r) then seen + chunk else seen)
  {
    hide StoredAt, Crc.Checksum, AnswersAck, AnswersError;
    PrefixGrows(st, r.next.mem, chunk);
    var t := st.transfer.value;
    var n := t.received + |chunk|;
    var sum := Crc.Checksum(r.next.mem[t.header.loadAddr..t.header.loadAddr + n]);
    if n < t.header.imageLen || sum == t.header.imageCrc32 {
      AckAcked(r, n);
    }
  }

  /** One event keeps what is seen and what is stored together. */
  lemma WatchStep(b: Board, st: Loader, e: Happening, seen: seq<byte>)
    requires Inv(b, st) && Known(st, seen) && b.loaderStart < b.loaderEnd
    ensures Known(React(b, st, e).next, Watch(seen, e, React(b, st, e)))
  {
    hide Inv, React, IsAck, IsError, IsReady, AnswersAck, AnswersError, AnswersReady, Refusal, Known, Watch;
    var r := React(b, st, e);
    match e
    case Expired =>
      ExpiredAnswer(b, st);
      WatchOther(st, e, r, seen);
    case Garbled(err) =>
      GarbledAnswer(b, st, err);
      WatchOther(st, e, r, seen);
    case Arrived(p) =>
      if p.ty == FrameType.Data {
        WatchData(b, st, p.payload, seen);
      } else {
        WatchFrame(b, st, p, seen);
      }
  }

  lemma WatchOther(st: Loader, e: Happening, r: Reaction, seen: seq<byte>)
    requires Known(st, seen) && (!e.Arrived? || (e.packet.ty != FrameType.Data && e.packet.ty != FrameType.Header))
    requires r.next.transfer.None? || (r.next.transfer == st.transfer && r.next.mem == st.mem)
    ensures Known(r.next, Watch(seen, e, r))
  {}

  lemma WatchFrame(b: Board, st: Loader, p: Packet, seen: seq<byte>)
    requires Inv(b, st) && Known(st, seen) && b.loaderStart < b.loaderEnd && p.ty != FrameType.Data
    ensures Known(React(b, st, Arrived(p)).next, Watch(seen, Arrived(p), React(b, st, Arrived(p))))
  {
    hide Inv, React, IsAck, IsError, IsReady, IsIdle, AnswersAck, AnswersError, AnswersReady, Refusal;
    hide Known, Watch, StoredAt;
    var e := Arrived(p);
    var r := React(b, st, e);
    match p.ty
    case Hello =>
      HelloAnswer(b, st, p.payload);
      WatchOther(st, e, r, seen);
    case Mode =>
      ModeAnswer(b, st, p.payload);
      WatchOther(st, e, r, seen);
    case Header =>
      HeaderAnswer(b, st, p.payload);
      WatchHeader(b, st, p.payload, r, seen);
    case Boot =>
      BootAnswer(b, st, p.payload);
      WatchBoot(b, st, p.payload, r, seen);
    case _ =>
      ConfusedAnswer(b, st, p.ty, p.payload);
      WatchOther(st, e, r, seen);
  }

  lemma WatchHeader(b: Board, st: Loader, payload: seq<byte>, r: Reaction, seen: seq<byte>)
    requires Inv(b, st) && Known(st, seen)
    requires if |payload| < 28 then Unmoved(st, r) && AnswersError(r, 3, 0)
      else var h := ImageHeader.FromBytes(payload).value;
        if Refusal(b, h) == 0
        then AnswersAck(r, 0) && r.next.transfer == Some(Transfer(h, 0, 0xffff_ffff, false))
        else AnswersError(r, Refusal(b, h), 0) && r.next.transfer.None?
    ensures Known(r.next, Watch(seen, Gets(FrameType.Header, payload), r))
  {
    hide AnswersAck, AnswersError, Refusal, Inv, Rd32, Rd64, RdWord;
    if |payload| < 28 {
      ErrorNotAcked(r, 3, 0);
    } else {
      var h := ImageHeader.FromBytes(payload).value;
      if Refusal(b, h) == 0 {
        AckAcked(r, 0);
        assert Prefix(r.next, 0) == [];
      }
    }
  }

  lemma WatchBoot(b: Board, st: Loader, payload: seq<byte>, r: Reaction, seen: seq<byte>)
    requires Inv(b, st) && Known(st, seen)
    requires if st.transfer.None? || !st.transfer.value.verified then Unmoved(st, r)
      else var h := st.transfer.value.header;
        && StoredAt(st.mem, r.next.mem, h.loadAddr + h.imageLen, Zeros(h.memLen - h.imageLen))
        && r.next == st.(mem := r.next.mem, contacted := true)
    ensures Known(r.next, Watch(seen, Gets(FrameType.Boot, payload), r))
  {
    hide Crc.Raw, Crc.Xor;
    if st.transfer.Some? && st.transfer.value.verified {
      assert Prefix(r.next, st.transfer.value.received) == Prefix(st, st.transfer.value.received);
    }
  }

  /** What has been seen at the end of a run. */
  function Seen(b: Board, st: Loader, es: seq<Happening>, seen: seq<byte>): seq<byte>
    requires Inv(b, st)
    decreases |es|
  {
    if es == [] then seen
    else
      ReactKeepsInv(b, st, es[0]);
      var r := React(b, st, es[0]);
      var now := Watch(seen, es[0], r);
      if r.jump.Some? then now else Seen(b, r.next, es[1..], now)
  }

  /** Over every run, with any peer: the image area of a live transfer holds exactly the
      chunks acknowledged since its HEADER was, in order. */
  lemma {:induction false} SeenIsStored(b: Board, st: Loader, es: seq<Happening>, seen: seq<byte>)
    requires Inv(b, st) && Known(st, seen) && b.loaderStart < b.loaderEnd
    ensures Known(Run(b, st, es).last, Seen(b, st, es, seen))
    decreases |es|
  {
    hide React, Inv, Known, Watch;
    if es != [] {
      ReactKeepsInv(b, st, es[0]);
      WatchStep(b, st, es[0], seen);
      var r := React(b, st, es[0]);
      if r.jump.None? {
        SeenIsStored(b, r.next, es[1..], Watch(seen, es[0], r));
      }
    }
  }

  /** So a jump enters exactly what was acknowledged. */
  lemma {:induction false} JumpEntersSeen(b: Board, st: Loader, es: seq<Happening>, seen: seq<byte>)
    requires Inv(b, st) && Known(st, seen) && b.loaderStart < b.loaderEnd && Run(b, st, es).jump.Some?
    ensures var ran := Run(b, st, es); var h := ran.jump.value.header;
      && |Seen(b, st, es, seen)| == h.imageLen
      && h.loadAddr + h.imageLen <= |ran.last.mem|
      && ran.last.mem[h.loadAddr..h.loadAddr + h.imageLen] == Seen(b, st, es, seen)
      && ran.jump.value.entry == h.loadAddr + h.entryOff
    decreases |es|
  {
    hide React, Inv, Known, Watch;
    ReactKeepsInv(b, st, es[0]);
    WatchStep(b, st, es[0], seen);
    var r := React(b, st, es[0]);
    if r.jump.None? {
      JumpEntersSeen(b, r.next, es[1..], Watch(seen, es[0], r));
    } else {
      OnlyBootJumps(b, st, es[0]);
      BootAnswer(b, st, es[0].packet.payload);
      assert es[0] == Gets(FrameType.Boot, es[0].packet.payload);
      AtJump(b, st, r, Watch(seen, es[0], r));
    }
  }

  lemma AtJump(b: Board, st: Loader, r: Reaction, seen: seq<byte>)
    requires Inv(b, st) && Inv(b, r.next) && st.transfer.Some? && st.transfer.value.verified && Known(r.next, seen)
    requires r.next == st.(mem := r.next.mem, contacted := true)
    ensures var h := st.transfer.value.header;
      && |seen| == h.imageLen
      && h.loadAddr + h.imageLen <= |r.next.mem|
      && r.next.mem[h.loadAddr..h.loadAddr + h.imageLen] == seen
  {
    hide Crc.Raw, Crc.Xor;
    FootprintFits(b, r.next);
  }
}
