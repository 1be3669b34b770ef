/** What one turn of the loader's loop does when no frame comes of it. */
module LoopTurns {
  import opened Bytes
  import opened Outcomes
  import opened Receive
  import opened Decoding
  import opened ByteLoop
  import opened Answers

  /** A turn without a byte. Three silent seconds end a transfer: the decoder starts anew,
      the peer is forgotten, the power mode stays, READY goes out. In every other case
      nothing moves but the heartbeat: when it is due, the idle line in low power, the
      waiting line while no peer has been heard, and nothing once one has. */
  lemma SilentTurn(b: Board, m: Machine, expired: bool, beat: bool)
    requires Inv(b, m.st)
    ensures var k := Turn(b, m, Silence(expired, beat));
      if m.st.transfer.Some? && expired then
        && k.st == Loader(m.st.mem, None, m.st.lowPower, false)
        && k.dec == Sync0 && k.jump.None?
        && exists p :: IsReady(p, b) && k.out == m.out + [Sends(p)]
      else
        && k.st == m.st && k.dec == m.dec && k.jump == m.jump
        && k.out == m.out
          + (if !beat then []
             else if m.st.lowPower then [IdleLine]
             else if m.st.contacted then []
             else [WaitingLine])
  {
    hide React, Inv, IsReady, Answers.IsError;
    if m.st.transfer.Some? && expired {
      ExpiredAnswer(b, m.st);
      var r := React(b, m.st, Expired);
      OneReply(r.replies);
      assert IsReady(r.replies[0], b);
    }
  }

  lemma OneReply(ps: seq<Packet>)
    requires |ps| == 1
    ensures ByteLoop.Frames(ps) == [Sends(ps[0])]
  {
    assert ps[1..] == [];
  }

  /** A turn with a byte that completes nothing only feeds the decoder; one that completes
      or spoils a frame is the loader's reaction to that frame or error, and its replies go
      out in order. */
  lemma ByteTurn(b: Board, m: Machine, x: byte)
    requires Inv(b, m.st)
    ensures var k := Turn(b, m, Byte(x)); var s := Step(m.dec, x);
      && k.dec == s.0
      && (s.1.None? ==> k == m.(dec := s.0))
      && (s.1.Some? ==>
            var e := match s.1.value
              case Good(ty, payload) => Arrived(Packet(ty, payload))
              case Bad(error) => Garbled(error);
            var r := React(b, m.st, e);
            k.st == r.next && k.jump == r.jump && k.out == m.out + ByteLoop.Frames(r.replies))
  {
    hide React, Inv, Step;
    assert m.out + [] == m.out;
  }

  /** The two lines a human may read. */
  lemma LinesRead()
    ensures OutBytes(WaitingLine) == Ascii(WAITING) && OutBytes(IdleLine) == Ascii(IDLE)
    ensures WAITING == "chainloader: up, waiting for host (HELLO)...\n" && IDLE == "chainloader: idle (low power)...\n"
  {
    hide Ascii, IsAscii;
    LinesAreAscii();
  }
}
