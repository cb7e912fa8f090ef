/**
 Length-prefixed frames over a byte channel whose reads and writes may move fewer bytes than asked,
 would block, or fail.
 */
module Framing {
  import opened Bytes

  /** The system's answer to one `read` or `write`. */
  datatype Answer = WouldBlock | Moved(n: nat) | Fails

  /** `Waiting`: the system has not answered again yet. */
  datatype Result<T> = Ok(value: T) | Failed | Waiting

  const MAX_FRAME_SIZE: nat := 64 * 1024 * 1024

  // ---------------------------------------------------------------------------------------------
  // Frames as bytes
  // ---------------------------------------------------------------------------------------------

  /** Four bytes of length, big-endian, cast to 32 bits, then the payload. */
  function Encode(payload: seq<byte>): seq<byte> {
    BE32(|payload| % 0x1_0000_0000) + payload
  }

  function Wire(payloads: seq<seq<byte>>): seq<byte> {
    if payloads == [] then [] else Encode(payloads[0]) + Wire(payloads[1..])
  }

  /** The first frame of a byte string and the length it takes; `Failed` if its length is over the limit. */
  function FirstFrame(bytes: seq<byte>, limit: nat): (r: Result<seq<byte>>)
    ensures r.Ok? ==> 4 + |r.value| <= |bytes| && |r.value| <= limit
  {
    if |bytes| < 4 then Waiting
    else
      var length := ReadBE32(bytes[..4]);
      if length > limit then Failed
      else if 4 + length > |bytes| then Waiting
      else Ok(bytes[4..4 + length])
  }

  /** The complete frames at the front of a byte string. */
  function Frames(bytes: seq<byte>, limit: nat): seq<seq<byte>>
    decreases |bytes|
  {
    var first := FirstFrame(bytes, limit);
    if first.Ok? then [first.value] + Frames(bytes[4 + |first.value|..], limit) else []
  }

  lemma FramesStep(bytes: seq<byte>, limit: nat)
    ensures var first := FirstFrame(bytes, limit);
            Frames(bytes, limit) == if first.Ok? then [first.value] + Frames(bytes[4 + |first.value|..], limit) else []
  {
  }

  lemma FirstFrameOfEncoded(payload: seq<byte>, rest: seq<byte>, limit: nat)
    requires |payload| <= limit && |payload| < 0x1_0000_0000
    ensures FirstFrame(Encode(payload) + rest, limit) == Ok(payload)
    ensures (Encode(payload) + rest)[4 + |payload|..] == rest
  {
    var bytes := Encode(payload) + rest;
    BE32RoundTrip(|payload|);
    assert |payload| % 0x1_0000_0000 == |payload|;
    assert bytes[..4] == BE32(|payload|) && bytes[4..4 + |payload|] == payload;
  }

  lemma {:induction false} FramesAreSmall(bytes: seq<byte>, limit: nat)
    ensures forall p :: p in Frames(bytes, limit) ==> |p| <= limit
    decreases |bytes|
  {
    var first := FirstFrame(bytes, limit);
    if first.Ok? {
      FramesAreSmall(bytes[4 + |first.value|..], limit);
    }
  }

  lemma {:induction false} SmallFramesComeBack(payloads: seq<seq<byte>>, limit: nat)
    requires limit < 0x1_0000_0000 && forall p :: p in payloads ==> |p| <= limit
    ensures Frames(Wire(payloads), limit) == payloads
  {
    if payloads != [] {
      FirstFrameOfEncoded(payloads[0], Wire(payloads[1..]), limit);
      SmallFramesComeBack(payloads[1..], limit);
    }
  }

  /** The payloads come back exactly, in order, exactly when none is over the receiver's limit. */
  lemma FramesComeBackExactlyWithinLimit(payloads: seq<seq<byte>>, limit: nat)
    requires limit < 0x1_0000_0000
    ensures Frames(Wire(payloads), limit) == payloads <==> forall p :: p in payloads ==> |p| <= limit
  {
    FramesAreSmall(Wire(payloads), limit);
    if forall p :: p in payloads ==> |p| <= limit {
      SmallFramesComeBack(payloads, limit);
    }
  }

  lemma BeginningGivesNoFrame(payload: seq<byte>, arrived: seq<byte>, limit: nat)
    requires limit < 0x1_0000_0000 && |payload| <= limit && arrived <= Encode(payload) && arrived != Encode(payload)
    ensures !FirstFrame(arrived, limit).Ok?
  {
    FirstFrameOfEncoded(payload, [], limit);
    assert Encode(payload) + [] == Encode(payload);
    assert |arrived| >= 4 ==> arrived[..4] == Encode(payload)[..4];
  }

  /** Of what has arrived so far the receiver makes the first payloads, and nothing else. */
  lemma {:induction false} PartialWireGivesPrefix(payloads: seq<seq<byte>>, arrived: seq<byte>, limit: nat)
    requires limit < 0x1_0000_0000 && forall p :: p in payloads ==> |p| <= limit
    requires arrived <= Wire(payloads)
    ensures Frames(arrived, limit) <= payloads
  {
    if payloads != [] {
      var first := Encode(payloads[0]);
      if |arrived| < |first| {
        BeginningGivesNoFrame(payloads[0], arrived, limit);
      } else {
        var later := arrived[|first|..];
        assert later <= Wire(payloads[1..]) && arrived == first + later;
        PartialWireGivesPrefix(payloads[1..], later, limit);
        FirstFrameOfEncoded(payloads[0], later, limit);
      }
    }
  }

  /** The agent and the host take payloads of up to 67108864 bytes. */
  lemma LimitIsExact(payload: seq<byte>)
    requires |payload| < 0x1_0000_0000
    ensures FirstFrame(Encode(payload), MAX_FRAME_SIZE) == if |payload| <= 67108864 then Ok(payload) else Failed
  {
    assert Encode(payload) + [] == Encode(payload);
    if |payload| <= 67108864 {
      FirstFrameOfEncoded(payload, [], MAX_FRAME_SIZE);
    } else {
      BE32RoundTrip(|payload|);
      hide BE32, ReadBE32;
      assert |payload| % 0x1_0000_0000 == |payload| && Encode(payload)[..4] == BE32(|payload|);
    }
  }

  // ---------------------------------------------------------------------------------------------
  // The channel
  // ---------------------------------------------------------------------------------------------

  /** The answers used up so far are the first ones. */
  ghost predicate UsedUp(answers: seq<Answer>, rest: seq<Answer>) {
    |rest| <= |answers| && rest == answers[|answers| - |rest|..]
  }

  function LastUsed(answers: seq<Answer>, rest: seq<Answer>): Answer
    requires |rest| < |answers|
  {
    answers[|answers| - |rest| - 1]
  }

  /** One end: what it has written, what the peer sends it, how much of that it has read, and the answers to come. */
  class SerialChannel {
    var sent: seq<byte>
    const inbound: seq<byte>
    var position: nat
    var answers: seq<Answer>

    ghost predicate Valid()
      reads this
    {
      position <= |inbound|
    }

    constructor (inbound: seq<byte>, answers: seq<Answer>)
      ensures Valid() && this.inbound == inbound && this.answers == answers && sent == [] && position == 0
    {
      this.inbound, this.answers := inbound, answers;
      sent, position := [], 0;
    }

    /** Reading nothing means the peer has closed. */
    method ReadExact(n: nat) returns (r: Result<seq<byte>>)
      requires Valid()
      modifies `position, `answers
      ensures Valid() && old(position) <= position <= old(position) + n
      ensures r.Ok? ==> position == old(position) + n && r.value == inbound[old(position)..position]
      ensures !r.Ok? ==> position < old(position) + n
      ensures UsedUp(old(answers), answers) && (r.Waiting? ==> answers == [])
      ensures r.Failed? ==> |answers| < |old(answers)|
                            && var last := LastUsed(old(answers), answers);
                               last.Fails? || (last.Moved? && (last.n == 0 || position == |inbound|))
    {
      var buf: seq<byte> := [];
      while |buf| < n
        invariant Valid() && position == old(position) + |buf| && |buf| <= n
        invariant buf == inbound[old(position)..position]
        invariant UsedUp(old(answers), answers)
        decreases |answers|
      {
        if answers == [] {
          return Waiting;
        }
        var ret := answers[0];
        answers := answers[1..];
        match ret {
          case WouldBlock =>
          case Fails =>
            return Failed;
          case Moved(k) =>
            var count := Min(k, Min(n - |buf|, |inbound| - position));
            if count == 0 {
              return Failed;
            }
            buf := buf + inbound[position..position + count];
            position := position + count;
        }
      }
      return Ok(buf);
    }

    method WriteAll(buf: seq<byte>) returns (r: Result<()>)
      modifies `sent, `answers
      ensures r.Ok? ==> sent == old(sent) + buf
      ensures old(sent) <= sent <= old(sent) + buf
      ensures UsedUp(old(answers), answers) && (r.Waiting? ==> answers == [])
      ensures r.Failed? ==> |answers| < |old(answers)| && LastUsed(old(answers), answers).Fails?
    {
      var done := 0;
      while done < |buf|
        invariant 0 <= done <= |buf| && sent == old(sent) + buf[..done]
        invariant UsedUp(old(answers), answers)
        decreases |answers|
      {
        if answers == [] {
          return Waiting;
        }
        var ret := answers[0];
        answers := answers[1..];
        match ret {
          case WouldBlock =>
          case Fails =>
            return Failed;
          case Moved(k) =>
            var count := Min(k, |buf| - done);
            assert buf[..done] + buf[done..done + count] == buf[..done + count];
            sent := sent + buf[done..done + count];
            done := done + count;
        }
      }
      assert buf[..done] == buf;
      return Ok(());
    }

    method WriteFrame(payload: seq<byte>) returns (r: Result<()>)
      modifies `sent, `answers
      ensures r.Ok? ==> sent == old(sent) + Encode(payload)
      ensures old(sent) <= sent <= old(sent) + Encode(payload)
      ensures UsedUp(old(answers), answers) && (r.Waiting? ==> answers == [])
      ensures r.Failed? ==> |answers| < |old(answers)| && LastUsed(old(answers), answers).Fails?
    {
      ghost var header := BE32(|payload| % 0x1_0000_0000);
      assert old(sent) + header + payload == old(sent) + Encode(payload);
      r := WriteAll(BE32(|payload| % 0x1_0000_0000));
      if r.Ok? {
        r := WriteAll(payload);
      }
    }

    /** The length is checked before the payload is read. */
    method ReadFrame(limit: nat) returns (r: Result<seq<byte>>)
      requires Valid()
      modifies `position, `answers
      ensures Valid() && old(position) <= position
      ensures r.Ok? ==> FirstFrame(inbound[old(position)..], limit) == r && position == old(position) + 4 + |r.value|
      ensures FirstFrame(inbound[old(position)..], limit) == Failed ==> !r.Ok? && position <= old(position) + 4
      ensures UsedUp(old(answers), answers) && (r.Waiting? ==> answers == [])
      ensures r.Failed? ==>
                || FirstFrame(inbound[old(position)..], limit) == Failed
                || (|answers| < |old(answers)|
                    && var last := LastUsed(old(answers), answers);
                       last.Fails? || (last.Moved? && (last.n == 0 || position == |inbound|)))
      ensures FirstFrame(inbound[old(position)..], limit).Ok? && !r.Ok?
              ==> position < old(position) + 4 + |FirstFrame(inbound[old(position)..], limit).value|
    {
      ghost var bytes := inbound[position..];
      var header := ReadExact(4);
      if !header.Ok? {
        return if header.Failed? then Failed else Waiting;
      }
      assert header.value == bytes[..4];
      var length := ReadBE32(header.value);
      if length > limit {
        return Failed;
      }
      r := ReadExact(length);
      assert r.Ok? ==> r.value == bytes[4..4 + length];
    }

    /** Everything queued for the channel, frame by frame, until one does not go through. */
    method WriteFrames(payloads: seq<seq<byte>>) returns (r: Result<()>)
      modifies `sent, `answers
      ensures r.Ok? ==> sent == old(sent) + Wire(payloads)
      ensures old(sent) <= sent <= old(sent) + Wire(payloads)
    {
      r := Ok(());
      for i := 0 to |payloads|
        invariant r.Ok? && old(sent) <= sent
        invariant sent + Wire(payloads[i..]) == old(sent) + Wire(payloads)
      {
        ghost var before := sent;
        assert payloads[i..][0] == payloads[i] && payloads[i..][1..] == payloads[i + 1..];
        ghost var frame, rest := Encode(payloads[i]), Wire(payloads[i + 1..]);
        assert before + (frame + rest) == before + frame + rest;
        r := WriteFrame(payloads[i]);
        if !r.Ok? {
          return;
        }
      }
    }

    /** The read loop: whatever the pieces it arrives in, it takes the stream's frames in order. */
    method ReadFrames(limit: nat) returns (frames: seq<seq<byte>>)
      requires Valid()
      modifies `position, `answers
      ensures Valid() && frames <= Frames(inbound[old(position)..], limit)
      ensures position == |inbound| ==> frames == Frames(inbound[old(position)..], limit)
    {
      hide Frames, FirstFrame;
      frames := [];
      ghost var all := Frames(inbound[position..], limit);
      while true
        invariant Valid() && frames + Frames(inbound[position..], limit) == all
        decreases |inbound| - position
      {
        ghost var rest := inbound[position..];
        FramesStep(rest, limit);
        var r := ReadFrame(limit);
        if !r.Ok? {
          assert position == |inbound| ==> !FirstFrame(rest, limit).Ok?;
          assert frames + [] == frames;
          return;
        }
        assert rest[4 + |r.value|..] == inbound[position..];
        assert all == frames + ([r.value] + Frames(inbound[position..], limit));
        frames := frames + [r.value];
      }
    }
  }

  /**
   Both ends together: whatever pieces the writes and the reads move, and wherever either stops,
   the receiver takes a prefix of the payloads in order, and all of them when neither stops early.
   */
  method Transfer(payloads: seq<seq<byte>>, writes: seq<Answer>, arrivals: seq<Answer>, limit: nat)
    returns (received: seq<seq<byte>>, complete: bool)
    requires limit < 0x1_0000_0000 && forall p :: p in payloads ==> |p| <= limit
    ensures received <= payloads && (complete ==> received == payloads)
  {
    var sender := new SerialChannel([], writes);
    var r := sender.WriteFrames(payloads);
    assert sender.sent <= Wire(payloads) by {
      assert [] + Wire(payloads) == Wire(payloads);
    }
    var receiver := new SerialChannel(sender.sent, arrivals);
    PartialWireGivesPrefix(payloads, sender.sent, limit);
    assert receiver.inbound[0..] == sender.sent;
    received := receiver.ReadFrames(limit);
    complete := r.Ok? && receiver.position == |sender.sent|;
    SmallFramesComeBack(payloads, limit);
  }
}
