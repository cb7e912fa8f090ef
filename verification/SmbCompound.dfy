/** Compound SMB2 messages: splitting a request frame, joining the responses into one. */
module SmbCompound {
  import opened Bytes
  import opened Sequences

  const SMB2_HEADER_SIZE := 64

  /** At offset 20 of the header: the distance to the next message, or zero in the last one. */
  function NextCommand(message: seq<byte>): uint32
    requires |message| >= SMB2_HEADER_SIZE
  {
    ReadLE32(message, 20)
  }

  function Split(data: seq<byte>): seq<seq<byte>>
    decreases |data|
  {
    if |data| < SMB2_HEADER_SIZE then []
    else
      var next := NextCommand(data);
      if next == 0 then [data]
      else [data[..Min(next, |data|)]] + Split(data[Min(next, |data|)..])
  }

  /** The messages are consecutive slices of the frame; at most an incomplete header is left over. */
  lemma {:induction false} SplitCoversTheFrame(data: seq<byte>)
    ensures Flatten(Split(data)) <= data
    ensures |data| - |Flatten(Split(data))| < SMB2_HEADER_SIZE
  {
    if |data| >= SMB2_HEADER_SIZE {
      var next := NextCommand(data);
      if next == 0 {
        FlattenOne(data);
      } else {
        var n := Min(next, |data|);
        SplitCoversTheFrame(data[n..]);
        FlattenAppend([data[..n]], Split(data[n..]));
        FlattenOne(data[..n]);
        assert data == data[..n] + data[n..];
      }
    }
  }

  /** The slices end where NextCommand says; a distance past the end of the frame ends with the frame. */
  lemma {:induction false} SplitLengths(data: seq<byte>, i: nat)
    requires i < |Split(data)|
    ensures var at := |Flatten(Split(data)[..i])|;
            && at + SMB2_HEADER_SIZE <= |data|
            && var next := ReadLE32(data, at + 20);
            && |Split(data)[i]| == (if next == 0 then |data| - at else Min(next, |data| - at))
            && (next == 0 ==> i == |Split(data)| - 1)
  {
    hide ReadLE32;
    if i > 0 {
      var n := Min(NextCommand(data), |data|);
      var rest := data[n..];
      SplitLengths(rest, i - 1);
      assert Split(data)[..i] == [data[..n]] + Split(rest)[..i - 1];
      FlattenAppend([data[..n]], Split(rest)[..i - 1]);
      FlattenOne(data[..n]);
      var at := |Flatten(Split(rest)[..i - 1])|;
      assert |Flatten(Split(data)[..i])| == n + at;
      ReadShifted(data, n, at + 20);
    }
  }

  /** One turn of the loop: the message at `offset` and what follows it. */
  lemma SplitAt(data: seq<byte>, offset: nat)
    requires offset <= |data|
    ensures offset + SMB2_HEADER_SIZE > |data| ==> Split(data[offset..]) == []
    ensures offset + SMB2_HEADER_SIZE <= |data| ==>
              var next := ReadLE32(data, offset + 20);
              var end := Min(offset + next, |data|);
              Split(data[offset..]) == if next == 0 then [data[offset..]] else [data[offset..end]] + Split(data[end..])
  {
    if offset + SMB2_HEADER_SIZE <= |data| {
      ReadShifted(data, offset, 20);
      hide ReadLE32;
      var rest := data[offset..];
      var next := ReadLE32(data, offset + 20);
      var end := Min(offset + next, |data|);
      assert data[offset..end] == rest[..end - offset] && data[end..] == rest[end - offset..];
    }
  }

  method SplitCompound(data: seq<byte>) returns (messages: seq<seq<byte>>)
    ensures messages == Split(data)
  {
    hide Split, ReadLE32;
    messages := [];
    var offset := 0;
    assert data[0..] == data;
    while offset < |data|
      invariant 0 <= offset
      invariant messages + Split(data[Min(offset, |data|)..]) == Split(data)
      decreases |data| - offset
    {
      SplitAt(data, offset);
      if offset + SMB2_HEADER_SIZE > |data| {
        assert messages + [] == messages;
        return;
      }
      var nextCommand := ReadLE32(data, offset + 20);
      if nextCommand == 0 {
        messages := messages + [data[offset..]];
        return;
      }
      var end := Min(offset + nextCommand, |data|);
      messages := messages + [data[offset..end]];
      offset := offset + nextCommand;
    }
    SplitAt(data, |data|);
    assert messages + [] == messages;
  }

  // ---------------------------------------------------------------------------------------------
  // Joining
  // ---------------------------------------------------------------------------------------------

  type Message = s: seq<byte> | SMB2_HEADER_SIZE <= |s| <= 0xFFFF_FFF0 witness Zeros(64)

  /** A response that another one follows. */
  function Chained(response: Message): (part: Message)
    ensures |part| == PaddedLength(|response|) && NextCommand(part) == |part|
  {
    PutLE32(Pad8(response), 20, PaddedLength(|response|))
  }

  /** Outside the NextCommand field it is the response and zero bytes. */
  lemma ChainedKeepsTheRest(response: Message, i: nat)
    requires i < PaddedLength(|response|) && !(20 <= i < 24)
    ensures Chained(response)[i] == if i < |response| then response[i] else 0
  {
    var padded, part := Pad8(response), Chained(response);
    if i < 20 {
      assert part[i] == part[..20][i] == padded[..20][i];
    } else {
      assert part[i] == part[24..][i - 24] == padded[24..][i - 24];
    }
    assert i < |response| ==> padded[i] == padded[..|response|][i];
  }

  function Parts(responses: seq<Message>): (parts: seq<Message>)
    ensures |parts| == |responses|
  {
    seq(|responses|, i requires 0 <= i < |responses| =>
      if i < |responses| - 1 then Chained(responses[i]) else responses[i])
  }

  function Join(responses: seq<Message>): seq<byte> {
    Flatten(Parts(responses))
  }

  method JoinResponses(responses: seq<Message>) returns (frame: seq<byte>)
    requires responses != []
    ensures frame == Join(responses)
  {
    if |responses| == 1 {
      JoinOfOne(responses[0]);
      assert responses == [responses[0]];
      return responses[0];
    }
    hide PutLE32, Pad8, PaddedLength, Flatten, NextCommand;
    frame := [];
    ghost var parts := Parts(responses);
    for i := 0 to |responses|
      invariant frame == Flatten(parts[..i])
    {
      var resp: seq<byte> := responses[i];
      if i < |responses| - 1 {
        resp := Pad8(resp);
        resp := PutLE32(resp, 20, |resp|);
      }
      assert resp == parts[i] && parts[..i + 1] == parts[..i] + [parts[i]];
      FlattenSnoc(parts[..i], parts[i]);
      frame := frame + resp;
    }
    assert parts[..|responses|] == parts;
  }

  lemma PartsTail(responses: seq<Message>)
    requires |responses| > 1
    ensures Parts(responses) == [Chained(responses[0])] + Parts(responses[1..])
  {
  }

  /**
   Splitting the joined responses gives them back, those followed by another padded and chained,
   exactly when the last one's NextCommand does not point into itself.
   */
  lemma {:induction false} SplitOfJoin(responses: seq<Message>)
    requires responses != []
    ensures var last := responses[|responses| - 1];
            Split(Join(responses)) == Parts(responses) <==> NextCommand(last) == 0 || NextCommand(last) >= |last|
  {
    if |responses| == 1 {
      SplitOfLast(responses[0]);
      JoinOfOne(responses[0]);
      assert responses == [responses[0]];
      assert Parts(responses) == [responses[0]];
    } else {
      SplitOfJoin(responses[1..]);
      PartsTail(responses);
      var first, rest := Chained(responses[0]), Join(responses[1..]);
      SplitOfChained(first, rest);
      JoinTail(responses);
      hide Split, Join, Parts;
      if Split(Join(responses)) == Parts(responses) {
        assert Split(rest) == Split(Join(responses))[1..];
        assert Parts(responses[1..]) == Parts(responses)[1..];
      }
    }
  }

  lemma JoinOfOne(response: Message)
    ensures Join([response]) == response
  {
    assert Parts([response]) == [response];
    FlattenOne(response);
  }

  lemma JoinTail(responses: seq<Message>)
    requires |responses| > 1
    ensures Join(responses) == Chained(responses[0]) + Join(responses[1..])
  {
    PartsTail(responses);
    assert Parts(responses)[1..] == Parts(responses[1..]);
  }

  lemma SplitOfChained(first: Message, rest: seq<byte>)
    requires NextCommand(first) == |first|
    ensures Split(first + rest) == [first] + Split(rest)
  {
    var frame := first + rest;
    assert frame[..|first|] == first && frame[|first|..] == rest;
    assert NextCommand(frame) == NextCommand(first);
  }

  lemma SplitOfLast(last: Message)
    ensures Split(last) == [last] <==> NextCommand(last) == 0 || NextCommand(last) >= |last|
  {
    var next := NextCommand(last);
    if next >= |last| {
      assert last[..|last|] == last;
      assert last[|last|..] == [];
    } else if next > 0 {
      assert |Split(last)[0]| == next;
    }
  }
}
