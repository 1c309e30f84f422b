/** What a whole TCP connection does, stated on frames instead of bytes. */
module Stream {
  import opened Bytes
  import opened Encap
  import opened Router
  import opened Server

  predicate AllAnswerable(frames: seq<Frame>) {
    forall i | 0 <= i < |frames| :: Answerable(frames[i])
  }

  predicate AllExact(frames: seq<Frame>) {
    forall i | 0 <= i < |frames| :: Exact(frames[i])
  }

  function EncodedFrames(frames: seq<Frame>): seq<Byte> {
    if frames == [] then [] else EncodedFrame(frames[0]) + EncodedFrames(frames[1..])
  }

  /** The answerable frames at the start of a stream, up to the first that is
      cut short, oversized or an Unregister.
   */
  function Accepted(b: seq<Byte>): seq<Frame> {
    if Stuck(b) then []
    else [FirstFrame(b).value] + Accepted(b[HEADER_SIZE + |FirstFrame(b).value.body|..])
  }

  function Unread(b: seq<Byte>): seq<Byte> {
    if Stuck(b) then b else Unread(b[HEADER_SIZE + |FirstFrame(b).value.body|..])
  }

  function Replies(reg: Registry, frames: seq<Frame>): seq<Frame>
    decreases |frames|
  {
    if frames == [] then []
    else
      var s := Serve(reg, frames[0]);
      [s.reply] + Replies(s.registry, frames[1..])
  }

  function RegistryAfter(reg: Registry, frames: seq<Frame>): Registry
    decreases |frames|
  {
    if frames == [] then reg else RegistryAfter(Serve(reg, frames[0]).registry, frames[1..])
  }

  // ---------- the input ----------

  lemma EncodedFramesCons(frames: seq<Frame>, rest: seq<Byte>)
    requires frames != []
    ensures EncodedFrames(frames) + rest == EncodedFrame(frames[0]) + (EncodedFrames(frames[1..]) + rest)
  {
  }

  lemma ConsAppend(frames: seq<Frame>, tail: seq<Frame>)
    requires frames != []
    ensures [frames[0]] + (frames[1..] + tail) == frames + tail
  {
  }

  lemma AcceptCons(f: Frame, rest: seq<Byte>)
    requires Answerable(f)
    ensures var b := EncodedFrame(f) + rest;
            !Stuck(b) && Accepted(b) == [f] + Accepted(rest) && Unread(b) == Unread(rest)
  {
    FirstFrameOfEncoded(f, rest);
  }

  lemma {:induction false} AcceptedSplits(b: seq<Byte>)
    ensures AllAnswerable(Accepted(b)) && Stuck(Unread(b))
    ensures EncodedFrames(Accepted(b)) + Unread(b) == b
  {
    if !Stuck(b) {
      var f := FirstFrame(b).value;
      var rest := b[HEADER_SIZE + |f.body|..];
      AcceptedSplits(rest);
      EncodedOfFirstFrame(b);
      assert Accepted(b) == [f] + Accepted(rest);
      EncodedFramesCons(Accepted(b), Unread(b));
    }
  }

  lemma {:induction false} AcceptEncoded(frames: seq<Frame>, rest: seq<Byte>)
    requires AllAnswerable(frames)
    ensures Accepted(EncodedFrames(frames) + rest) == frames + Accepted(rest)
    ensures Unread(EncodedFrames(frames) + rest) == Unread(rest)
  {
    if frames == [] {
      assert EncodedFrames(frames) + rest == rest;
    } else {
      AcceptEncoded(frames[1..], rest);
      EncodedFramesCons(frames, rest);
      AcceptCons(frames[0], EncodedFrames(frames[1..]) + rest);
      ConsAppend(frames, Accepted(rest));
    }
  }

  /** There is one way to cut a stream into answerable frames and a remainder
      that starts with none, and it is the one the server follows.
   */
  lemma AcceptedIff(b: seq<Byte>, frames: seq<Frame>, rest: seq<Byte>)
    ensures frames == Accepted(b) && rest == Unread(b) <==>
            AllAnswerable(frames) && Stuck(rest) && b == EncodedFrames(frames) + rest
  {
    AcceptedSplits(b);
    if AllAnswerable(frames) && Stuck(rest) && b == EncodedFrames(frames) + rest {
      AcceptEncoded(frames, rest);
      assert frames + [] == frames;
    }
  }

  // ---------- the output ----------

  /** The reply to a frame repeats its command and sender context, carries its
      session (or the one a Register creates), and says how long its body is.
   */
  predicate Echoes(request: Header, reply: Frame) {
    && reply.header.command == request.command
    && reply.header.context == request.context
    && reply.header.options == 0
    && reply.header.session == (if request.command == REGISTER_SESSION then SESSION_HANDLE else request.session)
    && reply.header.length == Low16(|reply.body|)
    && (reply.header.status == STATUS_FAIL ==> reply.body == [])
  }

  lemma ServeEchoes(reg: Registry, f: Frame)
    ensures Echoes(f.header, Serve(reg, f).reply)
  {
  }

  predicate AllEcho(frames: seq<Frame>, replies: seq<Frame>) {
    && |replies| == |frames|
    && forall i | 0 <= i < |frames| :: Echoes(frames[i].header, replies[i])
  }

  lemma {:induction false} RepliesEcho(reg: Registry, frames: seq<Frame>)
    decreases |frames|
    ensures AllEcho(frames, Replies(reg, frames))
  {
    if frames != [] {
      var s := Serve(reg, frames[0]);
      ServeEchoes(reg, frames[0]);
      RepliesEcho(s.registry, frames[1..]);
      EchoCons(frames, s.reply, Replies(s.registry, frames[1..]));
    }
  }

  lemma EchoCons(frames: seq<Frame>, reply: Frame, others: seq<Frame>)
    requires frames != [] && Echoes(frames[0].header, reply) && AllEcho(frames[1..], others)
    ensures AllEcho(frames, [reply] + others)
  {
    forall i | 0 < i < |frames| ensures Echoes(frames[i].header, others[i - 1]) {
      assert frames[i] == frames[1..][i - 1];
    }
  }

  lemma ServeCons(reg: Registry, f: Frame, rest: seq<Byte>)
    requires Answerable(f)
    ensures var s := Serve(reg, f);
            ServeStream(reg, EncodedFrame(f) + rest) == Following(EncodedFrame(s.reply), ServeStream(s.registry, rest))
  {
    FirstFrameOfEncoded(f, rest);
  }

  lemma FollowingNothing(s: Streamed)
    ensures Following([], s) == s
  {
    AddNothing(s.output);
  }

  lemma FollowingTwice(a: seq<Byte>, b: seq<Byte>, s: Streamed)
    ensures Following(a, Following(b, s)) == Following(a + b, s)
  {
    AddAssociates(a, b, s.output);
  }

  /** Answerable frames are answered one by one before anything else is read. */
  lemma {:induction false} StreamOfFrames(reg: Registry, frames: seq<Frame>, rest: seq<Byte>)
    requires AllAnswerable(frames)
    decreases |frames|
    ensures ServeStream(reg, EncodedFrames(frames) + rest)
         == Following(EncodedFrames(Replies(reg, frames)), ServeStream(RegistryAfter(reg, frames), rest))
  {
    if frames == [] {
      assert EncodedFrames(frames) + rest == rest;
      FollowingNothing(ServeStream(reg, rest));
    } else {
      var s := Serve(reg, frames[0]);
      StreamOfFrames(s.registry, frames[1..], rest);
      EncodedFramesCons(frames, rest);
      ServeCons(reg, frames[0], EncodedFrames(frames[1..]) + rest);
      var others := Replies(s.registry, frames[1..]);
      FollowingTwice(EncodedFrame(s.reply), EncodedFrames(others), ServeStream(RegistryAfter(reg, frames), rest));
      assert ([s.reply] + others)[1..] == others;
    }
  }

  /** For any input: the output is one reply for each accepted frame, in the
      order of the frames, and each reply echoes its frame.
   */
  lemma StreamCorrect(reg: Registry, b: seq<Byte>)
    ensures var frames := Accepted(b);
            var replies := Replies(reg, frames);
      && b == EncodedFrames(frames) + Unread(b)
      && AllAnswerable(frames)
      && Stuck(Unread(b))
      && ServeStream(reg, b) == Streamed(EncodedFrames(replies), RegistryAfter(reg, frames), Unread(b))
      && AllEcho(frames, replies)
  {
    AcceptedSplits(b);
    var frames := Accepted(b);
    StreamOfFrames(reg, frames, Unread(b));
    RepliesEcho(reg, frames);
    var replies := Replies(reg, frames);
    assert EncodedFrames(replies) + [] == EncodedFrames(replies);
  }

  /** How the input is cut into arriving chunks does not matter. */
  lemma StreamContinues(reg: Registry, a: seq<Byte>, b: seq<Byte>)
    ensures var first := ServeStream(reg, a);
            ServeStream(reg, a + b) == Following(first.output, ServeStream(first.registry, first.unread + b))
  {
    StreamCorrect(reg, a);
    AddAssociates(EncodedFrames(Accepted(a)), Unread(a), b);
    StreamOfFrames(reg, Accepted(a), Unread(a) + b);
  }

  // ---------- the client's reading of the output ----------

  /** Receive, called until the stream has no complete frame. */
  function ReadFrames(b: seq<Byte>): seq<Frame> {
    if FirstFrame(b).None? then []
    else [FirstFrame(b).value] + ReadFrames(b[HEADER_SIZE + |FirstFrame(b).value.body|..])
  }

  lemma ReadCons(f: Frame, rest: seq<Byte>)
    requires Exact(f)
    ensures ReadFrames(EncodedFrame(f) + rest) == [f] + ReadFrames(rest)
  {
    FirstFrameOfEncoded(f, rest);
  }

  lemma {:induction false} ReadEncoded(frames: seq<Frame>)
    requires AllExact(frames)
    ensures ReadFrames(EncodedFrames(frames)) == frames
  {
    if frames != [] {
      ReadEncoded(frames[1..]);
      ReadCons(frames[0], EncodedFrames(frames[1..]));
    }
  }

  lemma {:induction false} ReadFramesAreExact(b: seq<Byte>)
    ensures AllExact(ReadFrames(b))
  {
    if FirstFrame(b).Some? {
      EncodedOfFirstFrame(b);
      ReadFramesAreExact(b[HEADER_SIZE + |FirstFrame(b).value.body|..]);
    }
  }

  predicate AllShort(frames: seq<Frame>) {
    forall i | 0 <= i < |frames| :: |frames[i].body| < 0x1_0000
  }

  lemma ExactIffShort(frames: seq<Frame>, replies: seq<Frame>)
    requires AllEcho(frames, replies)
    ensures AllExact(replies) <==> AllShort(replies)
  {
    forall i | 0 <= i < |replies| ensures Exact(replies[i]) <==> |replies[i].body| < 0x1_0000 {
      assert Echoes(frames[i].header, replies[i]);
    }
  }

  /** The client gets back the very replies the server wrote exactly when
      every reply body fits the 16-bit length field.
   */
  lemma ClientReadsRepliesIff(reg: Registry, b: seq<Byte>)
    ensures var replies := Replies(reg, Accepted(b));
            ReadFrames(ServeStream(reg, b).output) == replies <==> AllShort(replies)
  {
    StreamCorrect(reg, b);
    var replies := Replies(reg, Accepted(b));
    ExactIffShort(Accepted(b), replies);
    if AllExact(replies) {
      ReadEncoded(replies);
    } else {
      ReadFramesAreExact(ServeStream(reg, b).output);
    }
  }
}
