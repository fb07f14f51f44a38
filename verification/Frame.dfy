/** Frames: where one message ends on a stream of bytes and the next begins.

    A frame is a four-byte little-endian body length followed by the body. The transport below it is
    an arbitrary script: it may split the bytes anywhere, be interrupted, time out, fail or end. The
    envelope encoding is a parameter of which only one law is used: decoding undoes encoding.
 */
module Frame {
  import opened Outcomes

  const LENGTH_PREFIX_LEN: nat := 4
  const MAX_BODY_LEN: nat := 1_048_576

  datatype Codec<!E> = Codec(enc: E -> seq<Byte>, dec: seq<Byte> -> Option<E>)

  ghost predicate Lawful<E(!new)>(codec: Codec<E>) {
    forall e :: codec.dec(codec.enc(e)) == Some(e)
  }

  datatype FrameError = TooLarge(bodyLen: nat) | Closed | Idle | Io | Decode

  /* Encoding. */

  function ToLittleEndian(n: nat): seq<Byte>
    requires n < 0x1_0000_0000
  {
    [n % 256, n / 256 % 256, n / 65_536 % 256, n / 16_777_216]
  }

  function FromLittleEndian(bytes: seq<Byte>): nat
    requires |bytes| == LENGTH_PREFIX_LEN
  {
    bytes[0] as int + 256 * bytes[1] as int + 65_536 * bytes[2] as int + 16_777_216 * bytes[3] as int
  }

  /** A complete frame, or a refusal that leaves nothing to put on the wire. */
  function Encode<E>(codec: Codec<E>, envelope: E): Result<seq<Byte>, FrameError> {
    var body := codec.enc(envelope);
    if |body| > MAX_BODY_LEN then Err(TooLarge(|body|)) else Ok(ToLittleEndian(|body|) + body)
  }

  function BodyLen(prefix: seq<Byte>): Result<nat, FrameError>
    requires |prefix| == LENGTH_PREFIX_LEN
  {
    var len := FromLittleEndian(prefix);
    if len > MAX_BODY_LEN then Err(TooLarge(len)) else Ok(len)
  }

  function Decoded<E>(codec: Codec<E>, body: seq<Byte>): Result<E, FrameError> {
    match codec.dec(body)
    case Some(envelope) => Ok(envelope)
    case None => Err(Decode)
  }

  lemma LittleEndianRoundTrip(n: nat)
    requires n < 0x1_0000_0000
    ensures FromLittleEndian(ToLittleEndian(n)) == n
  {
    assert n == n % 256 + 256 * (n / 256);
    assert n / 256 / 256 == n / 65_536 && n / 65_536 / 256 == n / 16_777_216;
  }

  /** What digits stand for, the lowest first. */
  function Positional(digits: seq<Byte>): nat {
    if digits == [] then 0 else digits[0] as int + 256 * Positional(digits[1..])
  }

  lemma {:induction false} LowestByteFirst(bytes: seq<Byte>)
    requires |bytes| == LENGTH_PREFIX_LEN
    ensures FromLittleEndian(bytes) == Positional(bytes)
  {
    assert bytes[1..][1..] == bytes[2..] && bytes[2..][1..] == bytes[3..] && bytes[3..][1..] == [];
    assert Positional(bytes[3..]) == bytes[3] as int;
    assert Positional(bytes[2..]) == bytes[2] as int + 256 * Positional(bytes[3..]);
    assert Positional(bytes[1..]) == bytes[1] as int + 256 * Positional(bytes[2..]);
  }

  /* The transport. */

  /** What the transport does next: it has some bytes, or one call to it ends some other way. */
  datatype IoEvent = Chunk(data: seq<Byte>) | Interrupted | TimedOut | Failed

  datatype ReadAnswer = Got(bytes: seq<Byte>) | WasInterrupted | HitTimeout | HitFailure

  type Script = seq<IoEvent>

  /** Every byte the transport still has to give. */
  function Bytes(script: Script): seq<Byte> {
    if script == [] then []
    else (if script[0].Chunk? then script[0].data else []) + Bytes(script[1..])
  }

  function Measure(script: Script): nat {
    |script| + |Bytes(script)|
  }

  /** One call to `read`. No bytes means the peer is gone; more than asked for stays for the next call. */
  function ReadOnce(script: Script, room: nat): (r: (ReadAnswer, Script))
    requires room > 0
    ensures r.0.Got? ==> |r.0.bytes| <= room
    ensures script != [] ==> Measure(r.1) < Measure(script)
  {
    if script == [] then (Got([]), [])
    else
      match script[0]
      case Interrupted => (WasInterrupted, script[1..])
      case TimedOut => (HitTimeout, script[1..])
      case Failed => (HitFailure, script[1..])
      case Chunk(data) =>
        if |data| <= room then (Got(data), script[1..])
        else (Got(data[..room]), [Chunk(data[room..])] + script[1..])
  }

  /* Filling a buffer. */

  datatype Obstacle = Ended | Quiet | Broken

  datatype Fill = Filled(bytes: seq<Byte>) | Short(why: Obstacle, got: nat)

  /** Reads until `want` bytes are there, riding out interruptions. */
  function FillFrom(script: Script, want: nat, filled: seq<Byte>): (r: (Fill, Script))
    requires |filled| <= want
    ensures Measure(r.1) <= Measure(script)
    ensures |filled| < want && script != [] ==> Measure(r.1) < Measure(script)
    ensures r.0.Filled? ==> |r.0.bytes| == want
    decreases Measure(script)
  {
    if |filled| == want then (Filled(filled), script)
    else if script == [] then (Short(Ended, |filled|), [])
    else
      var (answer, rest) := ReadOnce(script, want - |filled|);
      match answer
      case Got(bytes) =>
        if bytes == [] then (Short(Ended, |filled|), rest) else FillFrom(rest, want, filled + bytes)
      case WasInterrupted => FillFrom(rest, want, filled)
      case HitTimeout => (Short(Quiet, |filled|), rest)
      case HitFailure => (Short(Broken, |filled|), rest)
  }

  /** What a short length prefix means: only before its first byte is it an ending or an idle moment. */
  function PrefixError(why: Obstacle, got: nat): FrameError {
    if got == 0 && why == Ended then Closed
    else if got == 0 && why == Quiet then Idle
    else Io
  }

  /** One call to `frame::read`: the envelope or the error, and what the transport has left. */
  function ReadFrame<E>(codec: Codec<E>, script: Script): (r: (Result<E, FrameError>, Script))
    ensures r.0.Ok? || r.0 == Err(Idle) ==> Measure(r.1) < Measure(script)
  {
    var (prefix, afterPrefix) := FillFrom(script, LENGTH_PREFIX_LEN, []);
    match prefix
    case Short(why, got) => (Err(PrefixError(why, got)), afterPrefix)
    case Filled(bytes) =>
      match BodyLen(bytes)
      case Err(error) => (Err(error), afterPrefix)
      case Ok(len) =>
        var (body, rest) := FillFrom(afterPrefix, len, []);
        match body
        case Short(_, _) => (Err(Io), rest)
        case Filled(bytes) => (Decoded(codec, bytes), rest)
  }

  /** Reading frame after frame until the connection is over; idle moments are survived. */
  function ReadAll<E>(codec: Codec<E>, script: Script): (outcomes: seq<Result<E, FrameError>>)
    decreases Measure(script)
  {
    var (outcome, rest) := ReadFrame(codec, script);
    if outcome.Ok? || outcome == Err(Idle) then [outcome] + ReadAll(codec, rest) else [outcome]
  }

  /* The reader itself. */

  class Reader {
    var script: Script

    constructor (script: Script)
      ensures this.script == script
    {
      this.script := script;
    }

    method Read(room: nat) returns (answer: ReadAnswer)
      requires room > 0
      modifies this
      ensures (answer, script) == ReadOnce(old(script), room)
    {
      if script == [] {
        return Got([]);
      }
      match script[0]
      case Interrupted =>
        answer, script := WasInterrupted, script[1..];
      case TimedOut =>
        answer, script := HitTimeout, script[1..];
      case Failed =>
        answer, script := HitFailure, script[1..];
      case Chunk(data) =>
        if |data| <= room {
          answer, script := Got(data), script[1..];
        } else {
          answer, script := Got(data[..room]), [Chunk(data[room..])] + script[1..];
        }
    }

    /** Fills the length prefix; only before its first byte is the end of the stream a clean one. */
    method ReadPrefix() returns (prefix: Result<seq<Byte>, FrameError>)
      modifies this
      ensures var (fill, rest) := FillFrom(old(script), LENGTH_PREFIX_LEN, []);
              && script == rest
              && prefix == (match fill
                            case Filled(bytes) => Ok(bytes)
                            case Short(why, got) => Err(PrefixError(why, got)))
      ensures prefix.Ok? ==> |prefix.value| == LENGTH_PREFIX_LEN
    {
      var filled: seq<Byte> := [];
      while |filled| < LENGTH_PREFIX_LEN
        invariant |filled| <= LENGTH_PREFIX_LEN
        invariant FillFrom(script, LENGTH_PREFIX_LEN, filled) == FillFrom(old(script), LENGTH_PREFIX_LEN, [])
        decreases Measure(script) + LENGTH_PREFIX_LEN - |filled|
      {
        var answer := Read(LENGTH_PREFIX_LEN - |filled|);
        match answer
        case Got(bytes) =>
          if bytes == [] && |filled| == 0 {
            return Err(Closed);
          } else if bytes == [] {
            return Err(Io);
          }
          filled := filled + bytes;
        case WasInterrupted =>
        case HitTimeout =>
          return Err(if |filled| == 0 then Idle else Io);
        case HitFailure =>
          return Err(Io);
      }
      return Ok(filled);
    }

    /** Fills a body: an ending, a timeout or a failure inside one are all the end of the connection. */
    method ReadExact(want: nat) returns (body: Result<seq<Byte>, FrameError>)
      modifies this
      ensures var (fill, rest) := FillFrom(old(script), want, []);
              && script == rest
              && body == (match fill case Filled(bytes) => Ok(bytes) case Short(_, _) => Err(Io))
    {
      var filled: seq<Byte> := [];
      while |filled| < want
        invariant |filled| <= want
        invariant FillFrom(script, want, filled) == FillFrom(old(script), want, [])
        decreases Measure(script) + want - |filled|
      {
        var answer := Read(want - |filled|);
        match answer
        case Got(bytes) =>
          if bytes == [] {
            return Err(Io);
          }
          filled := filled + bytes;
        case WasInterrupted =>
        case HitTimeout =>
          return Err(Io);
        case HitFailure =>
          return Err(Io);
      }
      return Ok(filled);
    }

    method ReadEnvelope<E>(codec: Codec<E>) returns (outcome: Result<E, FrameError>)
      modifies this
      ensures (outcome, script) == ReadFrame(codec, old(script))
    {
      var prefix := ReadPrefix();
      if prefix.Err? {
        return Err(prefix.error);
      }
      var len := BodyLen(prefix.value);
      if len.Err? {
        return Err(len.error);
      }
      var body := ReadExact(len.value);
      if body.Err? {
        return Err(body.error);
      }
      outcome := Decoded(codec, body.value);
    }
  }

  /* Whatever the transport does, reads stop at frame boundaries. */

  lemma BytesOfRest(script: Script, room: nat)
    requires room > 0
    ensures var (answer, rest) := ReadOnce(script, room);
            Bytes(script) == (if answer.Got? then answer.bytes else []) + Bytes(rest)
  {
    if script != [] && script[0].Chunk? && |script[0].data| > room {
      var data := script[0].data;
      var rest := [Chunk(data[room..])] + script[1..];
      assert rest[1..] == script[1..];
      assert data == data[..room] + data[room..];
    }
  }

  /** `after` is `before` without its first `n` bytes. */
  ghost predicate Taken(before: seq<Byte>, after: seq<Byte>, n: nat) {
    n <= |before| && after == before[n..]
  }

  lemma TakenTwice(before: seq<Byte>, middle: seq<Byte>, after: seq<Byte>, m: nat, n: nat)
    requires Taken(before, middle, m) && Taken(middle, after, n)
    ensures Taken(before, after, m + n)
  {
  }

  lemma {:induction false} ReadTakes(script: Script, room: nat)
    requires room > 0
    ensures var (answer, rest) := ReadOnce(script, room);
            Taken(Bytes(script), Bytes(rest), if answer.Got? then |answer.bytes| else 0)
  {
    BytesOfRest(script, room);
  }

  /** Filling takes bytes off the front of the stream, loses none and invents none; what falls short has taken as many
      as it says it got. */
  lemma {:induction false} FillConserves(script: Script, want: nat, filled: seq<Byte>)
    requires |filled| <= want
    ensures var (fill, rest) := FillFrom(script, want, filled);
            match fill
            case Filled(bytes) => filled + Bytes(script) == bytes + Bytes(rest)
            case Short(_, got) => |filled| <= got < want && Taken(Bytes(script), Bytes(rest), got - |filled|)
  {
    FillKeeps(script, want, filled);
    FillTakes(script, want, filled);
  }

  lemma {:induction false} FillKeeps(script: Script, want: nat, filled: seq<Byte>)
    requires |filled| <= want
    ensures var (fill, rest) := FillFrom(script, want, filled);
            fill.Filled? ==> filled + Bytes(script) == fill.bytes + Bytes(rest)
    decreases Measure(script)
  {
    if |filled| < want && script != [] {
      var (answer, rest) := ReadOnce(script, want - |filled|);
      BytesOfRest(script, want - |filled|);
      match answer
      case Got(bytes) =>
        if bytes != [] {
          FillKeeps(rest, want, filled + bytes);
          Regroup(filled, bytes, Bytes(rest));
        }
      case WasInterrupted =>
        assert [] + Bytes(rest) == Bytes(rest);
        FillKeeps(rest, want, filled);
      case _ =>
    }
  }

  lemma {:induction false} FillTakes(script: Script, want: nat, filled: seq<Byte>)
    requires |filled| <= want
    ensures TookWhatItGot(script, |filled|, want, FillFrom(script, want, filled))
    decreases Measure(script)
  {
    if |filled| < want && script != [] {
      var (answer, rest) := ReadOnce(script, want - |filled|);
      ReadTakes(script, want - |filled|);
      FillUnfolds(script, want, filled);
      if answer.Got? && answer.bytes != [] {
        FillTakes(rest, want, filled + answer.bytes);
        TookOn(script, rest, |filled|, |answer.bytes|, want, FillFrom(rest, want, filled + answer.bytes));
      } else if answer.WasInterrupted? {
        FillTakes(rest, want, filled);
        TookOn(script, rest, |filled|, 0, want, FillFrom(rest, want, filled));
      }
    }
  }

  ghost predicate TookWhatItGot(script: Script, had: nat, want: nat, outcome: (Fill, Script)) {
    outcome.0.Short? ==> had <= outcome.0.got < want && Taken(Bytes(script), Bytes(outcome.1), outcome.0.got - had)
  }

  lemma {:induction false} TookOn(script: Script, rest: Script, had: nat, more: nat, want: nat, outcome: (Fill, Script))
    requires Taken(Bytes(script), Bytes(rest), more) && TookWhatItGot(rest, had + more, want, outcome)
    ensures TookWhatItGot(script, had, want, outcome)
  {
    if outcome.0.Short? {
      TakenTwice(Bytes(script), Bytes(rest), Bytes(outcome.1), more, outcome.0.got - had - more);
    }
  }

  lemma {:induction false} FillUnfolds(script: Script, want: nat, filled: seq<Byte>)
    requires |filled| < want && script != []
    ensures var (answer, rest) := ReadOnce(script, want - |filled|);
            var after := FillFrom(script, want, filled);
            if answer.Got? && answer.bytes != [] then after == FillFrom(rest, want, filled + answer.bytes)
            else if answer.WasInterrupted? then after == FillFrom(rest, want, filled)
            else after.0.Short? && after.0.got == |filled| && after.1 == rest
  {
  }

  lemma Regroup(a: seq<Byte>, b: seq<Byte>, c: seq<Byte>)
    ensures (a + b) + c == a + (b + c)
  {
  }

  /** Over every transport: an envelope costs exactly one frame of the stream, and a read that reports
      the connection idle or closed has taken no byte of a frame off it. */
  lemma {:induction false} ReadsStopAtBoundaries<E>(codec: Codec<E>, script: Script)
    ensures var (outcome, rest) := ReadFrame(codec, script);
            && (outcome == Err(Idle) || outcome == Err(Closed) ==> Bytes(rest) == Bytes(script))
            && (outcome.Ok? ==> exists prefix: seq<Byte>, body: seq<Byte> ::
                  && |prefix| == LENGTH_PREFIX_LEN && FromLittleEndian(prefix) == |body| <= MAX_BODY_LEN
                  && codec.dec(body) == Some(outcome.value)
                  && Bytes(script) == prefix + body + Bytes(rest))
  {
    FillConserves(script, LENGTH_PREFIX_LEN, []);
    var (prefix, afterPrefix) := FillFrom(script, LENGTH_PREFIX_LEN, []);
    if prefix.Filled? && BodyLen(prefix.bytes).Ok? {
      var len := BodyLen(prefix.bytes).value;
      FillConserves(afterPrefix, len, []);
      var (body, rest) := FillFrom(afterPrefix, len, []);
      if body.Filled? {
        assert [] + Bytes(script) == Bytes(script);
        assert [] + Bytes(afterPrefix) == Bytes(afterPrefix);
        assert prefix.bytes + (body.bytes + Bytes(rest)) == prefix.bytes + body.bytes + Bytes(rest);
        assert Bytes(script) == prefix.bytes + body.bytes + Bytes(rest);
        if codec.dec(body.bytes).Some? {
          assert FromLittleEndian(prefix.bytes) == |body.bytes|;
        }
      }
    }
  }

  /* What a read says, over any transport. */

  /** The bytes that come before the transport ends, goes quiet or fails, and which of these it then does. */
  function Delivered(script: Script): (seq<Byte>, Obstacle) {
    if script == [] then ([], Ended)
    else
      match script[0]
      case Chunk(data) =>
        if data == [] then ([], Ended)
        else
          var (more, why) := Delivered(script[1..]);
          (data + more, why)
      case Interrupted => Delivered(script[1..])
      case TimedOut => ([], Quiet)
      case Failed => ([], Broken)
  }

  /** However the bytes are split and interrupted, a buffer is filled with the next ones delivered, or falls short by
      what is not. */
  lemma {:induction false} FillsWithWhatIsDelivered(script: Script, want: nat, filled: seq<Byte>)
    requires |filled| <= want
    ensures var (data, why) := Delivered(script);
            var missing := want - |filled|;
            var (fill, rest) := FillFrom(script, want, filled);
            if missing <= |data| then fill == Filled(filled + data[..missing]) &&
              Delivered(rest) == (data[missing..], why)
            else fill == Short(why, |filled| + |data|)
    decreases Measure(script)
  {
    if |filled| < want && script != [] {
      FillUnfolds(script, want, filled);
      var missing := want - |filled|;
      match script[0]
      case Chunk(data) =>
        if |data| > missing {
          var rest := [Chunk(data[missing..])] + script[1..];
          assert rest[1..] == script[1..];
          DeliveredSplits(data, Delivered(script[1..]).0, missing);
          FillsWithWhatIsDelivered(rest, want, filled + data[..missing]);
        } else if data != [] {
          FillsWithWhatIsDelivered(script[1..], want, filled + data);
          DeliveredOn(filled, data, Delivered(script[1..]).0, missing);
        }
      case Interrupted => FillsWithWhatIsDelivered(script[1..], want, filled);
      case _ =>
    }
  }

  lemma DeliveredSplits(data: seq<Byte>, more: seq<Byte>, n: nat)
    requires n <= |data|
    ensures (data + more)[..n] == data[..n] && (data + more)[n..] == data[n..] + more
  {
  }

  lemma DeliveredOn(filled: seq<Byte>, data: seq<Byte>, more: seq<Byte>, missing: nat)
    requires |data| <= missing
    ensures missing <= |data + more| ==>
              (filled + data) + more[..missing - |data|] == filled + (data + more)[..missing]
              && more[missing - |data|..] == (data + more)[missing..]
  {
  }

  /** Over every transport and every stream: a read says that the peer closed, is idle or failed exactly when that is
      what comes before any byte; it gives the envelope, or says that it cannot be decoded, exactly when a prefix
      within the cap and all it announces are delivered; it refuses a larger one on the prefix alone; and everything
      else is the end of the connection. */
  lemma {:induction false} ReadsSayWhatHappened<E>(codec: Codec<E>, script: Script)
    ensures var (data, why) := Delivered(script);
            ReadFrame(codec, script).0 ==
            if data == [] then Err(if why == Ended then Closed else if why == Quiet then Idle else Io)
            else if |data| < LENGTH_PREFIX_LEN then Err(Io)
            else if Positional(data[..4]) > MAX_BODY_LEN then Err(TooLarge(Positional(data[..4])))
            else if |data| - 4 < Positional(data[..4]) then Err(Io)
            else
              match codec.dec(data[4..4 + Positional(data[..4])])
              case Some(envelope) => Ok(envelope)
              case None => Err(Decode)
  {
    FillsWithWhatIsDelivered(script, LENGTH_PREFIX_LEN, []);
    var (data, why) := Delivered(script);
    if |data| >= LENGTH_PREFIX_LEN {
      assert [] + data[..4] == data[..4];
      LowestByteFirst(data[..4]);
      var (prefix, afterPrefix) := FillFrom(script, LENGTH_PREFIX_LEN, []);
      var len := Positional(data[..4]);
      FillsWithWhatIsDelivered(afterPrefix, len, []);
      if len <= |data| - 4 {
        assert [] + data[4..][..len] == data[4..4 + len];
      }
    }
  }

  /* A transport that delivers whole frames. */

  function Frames<E>(codec: Codec<E>, envelopes: seq<E>): (frames: seq<seq<Byte>>)
    requires forall e :: e in envelopes ==> |codec.enc(e)| <= MAX_BODY_LEN
    ensures |frames| == |envelopes|
    ensures forall i :: 0 <= i < |frames| ==> Encode(codec, envelopes[i]) == Ok(frames[i])
  {
    seq(|envelopes|, i requires 0 <= i < |envelopes| => Encode(codec, envelopes[i]).value)
  }

  function Concat(frames: seq<seq<Byte>>): seq<Byte> {
    if frames == [] then [] else frames[0] + Concat(frames[1..])
  }

  lemma {:induction false} ConcatAppend(frames: seq<seq<Byte>>, last: seq<Byte>)
    ensures Concat(frames + [last]) == Concat(frames) + last
  {
    if frames == [] {
      assert [last][1..] == [] && [] + [last] == [last];
    } else {
      ConcatAppend(frames[1..], last);
      assert (frames + [last])[1..] == frames[1..] + [last];
    }
  }

  /** The sending side: the caller's buffer and what has gone onto the wire. */
  class Writer<!E> {
    const codec: Codec<E>
    var buffer: seq<Byte>
    var wire: seq<Byte>
    /** The envelopes written in full so far. */
    ghost var sent: seq<E>

    ghost predicate Valid()
      reads this
    {
      (forall e :: e in sent ==> |codec.enc(e)| <= MAX_BODY_LEN) && wire == Concat(Frames(codec, sent))
    }

    constructor (codec: Codec<E>)
      ensures Valid() && this.codec == codec && sent == []
    {
      this.codec := codec;
      buffer, wire, sent := [], [], [];
    }

    /** Leaves exactly the frame in the buffer, or the buffer as it was when the body is over the cap. */
    method EncodeInto(envelope: E) returns (result: Result<(), FrameError>)
      modifies this`buffer
      ensures result.Err? <==> |codec.enc(envelope)| > MAX_BODY_LEN
      ensures result.Err? ==> result.error == TooLarge(|codec.enc(envelope)|) && buffer == old(buffer)
      ensures result.Ok? ==> Encode(codec, envelope) == Ok(buffer)
    {
      var body := codec.enc(envelope);
      if |body| > MAX_BODY_LEN {
        return Err(TooLarge(|body|));
      }
      buffer := [];
      buffer := buffer + ToLittleEndian(|body|);
      assert buffer == ToLittleEndian(|body|);
      buffer := buffer + body;
      return Ok(());
    }

    /** Writes one frame to a transport that takes `room` more bytes before it fails, and flushes it. What is
        too large never reaches the wire, and what fails leaves at most the front of one frame there. */
    method Write(envelope: E, room: nat, flushes: bool) returns (result: Result<(), FrameError>)
      requires Valid()
      modifies this
      ensures result.Ok? <==>
                |codec.enc(envelope)| <= MAX_BODY_LEN && LENGTH_PREFIX_LEN + |codec.enc(envelope)| <= room && flushes
      ensures result.Ok? ==> Valid() && sent == old(sent) + [envelope]
      ensures result.Err? && result.error.TooLarge? ==> Valid() && sent == old(sent) && wire == old(wire)
      ensures result.Err? && !result.error.TooLarge? ==>
                result.error == Io && |codec.enc(envelope)| <= MAX_BODY_LEN &&
                old(wire) <= wire <= old(wire) + Encode(codec, envelope).value
    {
      var encoded := EncodeInto(envelope);
      if encoded.Err? {
        return Err(encoded.error);
      }
      ghost var frames := Frames(codec, sent);
      if |buffer| > room {
        wire := wire + buffer[..room];
        assert old(wire) + buffer[..room] == (old(wire) + buffer)[..|old(wire)| + room];
        return Err(Io);
      }
      wire := wire + buffer;
      sent := sent + [envelope];
      ConcatAppend(frames, buffer);
      assert Frames(codec, sent) == frames + [buffer];
      if !flushes {
        return Err(Io);
      }
      return Ok(());
    }
  }

  /** Where the frame numbered `k` starts. */
  function Offset(frames: seq<seq<Byte>>, k: nat): nat
    requires k <= |frames|
  {
    if k == 0 then 0 else Offset(frames, k - 1) + |frames[k - 1]|
  }

  ghost predicate AtBoundary(frames: seq<seq<Byte>>, position: nat) {
    exists k :: 0 <= k <= |frames| && Offset(frames, k) == position
  }

  /** The transport never fails and times out between frames only; splits and interruptions are free. */
  ghost predicate WellTimed(script: Script, frames: seq<seq<Byte>>, position: nat) {
    script == [] ||
    (match script[0]
     case Chunk(data) => data != [] && WellTimed(script[1..], frames, position + |data|)
     case Interrupted => WellTimed(script[1..], frames, position)
     case TimedOut => AtBoundary(frames, position) && WellTimed(script[1..], frames, position)
     case Failed => false)
  }

  function Timeouts(script: Script): nat {
    if script == [] then 0 else (if script[0].TimedOut? then 1 else 0) + Timeouts(script[1..])
  }

  lemma {:induction false} OffsetsGrow(frames: seq<seq<Byte>>, less: nat, more: nat)
    requires less <= more <= |frames|
    ensures Offset(frames, less) <= Offset(frames, more)
  {
    if less < more {
      OffsetsGrow(frames, less, more - 1);
    }
  }

  lemma NoBoundaryInside(frames: seq<seq<Byte>>, k: nat, position: nat)
    requires k < |frames| && Offset(frames, k) < position < Offset(frames, k + 1)
    ensures !AtBoundary(frames, position)
  {
    forall j | 0 <= j <= |frames|
      ensures Offset(frames, j) != position
    {
      if j <= k {
        OffsetsGrow(frames, j, k);
      } else {
        OffsetsGrow(frames, k + 1, j);
      }
    }
  }

  lemma ReadOnceWellTimed(script: Script, room: nat, frames: seq<seq<Byte>>, position: nat)
    requires room > 0 && WellTimed(script, frames, position) && Bytes(script) != []
    ensures var (answer, rest) := ReadOnce(script, room);
            && !answer.HitFailure?
            && (answer.Got? ==> answer.bytes != [])
            && (answer.HitTimeout? ==> AtBoundary(frames, position))
            && WellTimed(rest, frames, position + (if answer.Got? then |answer.bytes| else 0))
            && Timeouts(script) == Timeouts(rest) + (if answer.HitTimeout? then 1 else 0)
  {
    if script[0].Chunk? && |script[0].data| > room {
      var rest := [Chunk(script[0].data[room..])] + script[1..];
      assert rest[1..] == script[1..];
      assert WellTimed(rest, frames, position + room);
    }
  }

  /** On such a transport a buffer inside one frame always fills; at the start of one it may idle first. */
  lemma {:induction false} FillInsideFrame(script: Script, want: nat, filled: seq<Byte>, frames: seq<seq<Byte>>,
                                           position: nat)
    requires |filled| < want && want - |filled| <= |Bytes(script)|
    requires WellTimed(script, frames, position)
    requires forall p :: position < p < position + want - |filled| ==> !AtBoundary(frames, p)
    requires filled != [] ==> !AtBoundary(frames, position)
    ensures var (fill, rest) := FillFrom(script, want, filled);
            || (fill.Filled? && WellTimed(rest, frames, position + want - |filled|) &&
                Timeouts(rest) == Timeouts(script))
            || (&& fill == Short(Quiet, 0) && AtBoundary(frames, position)
                && WellTimed(rest, frames, position) && Timeouts(rest) + 1 == Timeouts(script))
    decreases Measure(script)
  {
    var missing := want - |filled|;
    var (answer, rest) := ReadOnce(script, missing);
    ReadOnceWellTimed(script, missing, frames, position);
    BytesOfRest(script, missing);
    match answer
    case Got(bytes) =>
      if |bytes| < missing {
        FillInsideFrame(rest, want, filled + bytes, frames, position + |bytes|);
      } else {
        assert FillFrom(rest, want, filled + bytes) == (Filled(filled + bytes), rest);
      }
    case WasInterrupted =>
      FillInsideFrame(rest, want, filled, frames, position);
    case HitTimeout =>
  }

  lemma SplitFront(a: seq<Byte>, a': seq<Byte>, b: seq<Byte>, b': seq<Byte>)
    requires a + a' == b + b' && |a| == |b|
    ensures a == b && a' == b'
  {
    assert a == (a + a')[..|a|] && b == (b + b')[..|b|];
    assert a' == (a + a')[|a|..] && b' == (b + b')[|b|..];
  }

  lemma {:induction false} ConcatFrom(frames: seq<seq<Byte>>, k: nat)
    requires k < |frames|
    ensures Concat(frames[k..]) == frames[k] + Concat(frames[k + 1..])
  {
    assert frames[k..][0] == frames[k] && frames[k..][1..] == frames[k + 1..];
  }

  /** One read of such a transport gives the next envelope, or is an idle moment before it. */
  lemma {:induction false} NextFrame<E(!new)>(codec: Codec<E>, envelopes: seq<E>, k: nat, script: Script)
    requires Lawful(codec) && forall e :: e in envelopes ==> |codec.enc(e)| <= MAX_BODY_LEN
    requires k < |envelopes|
    requires Bytes(script) == Concat(Frames(codec, envelopes)[k..])
    requires WellTimed(script, Frames(codec, envelopes), Offset(Frames(codec, envelopes), k))
    ensures var frames := Frames(codec, envelopes);
            var (outcome, rest) := ReadFrame(codec, script);
            || (&& outcome == Ok(envelopes[k])
                && Bytes(rest) == Concat(frames[k + 1..])
                && WellTimed(rest, frames, Offset(frames, k + 1))
                && Timeouts(rest) == Timeouts(script))
            || (&& outcome == Err(Idle)
                && Bytes(rest) == Concat(frames[k..])
                && WellTimed(rest, frames, Offset(frames, k))
                && Timeouts(rest) + 1 == Timeouts(script))
  {
    var frames := Frames(codec, envelopes);
    assert envelopes[k] in envelopes;
    ConcatFrom(frames, k);
    forall p | Offset(frames, k) < p < Offset(frames, k + 1) ensures !AtBoundary(frames, p) {
      NoBoundaryInside(frames, k, p);
    }
    ReadsOneFrame(codec, envelopes[k], script, Concat(frames[k + 1..]), frames, Offset(frames, k));
  }

  lemma {:induction false} ReadsOneFrame<E(!new)>(codec: Codec<E>, envelope: E, script: Script, tail: seq<Byte>,
                                                  frames: seq<seq<Byte>>, position: nat)
    requires Lawful(codec) && Encode(codec, envelope).Ok?
    requires Bytes(script) == Encode(codec, envelope).value + tail
    requires WellTimed(script, frames, position)
    requires forall p :: position < p < position + |Encode(codec, envelope).value| ==> !AtBoundary(frames, p)
    ensures var (outcome, rest) := ReadFrame(codec, script);
            || (&& outcome == Ok(envelope) && Bytes(rest) == tail
                && WellTimed(rest, frames, position + |Encode(codec, envelope).value|)
                && Timeouts(rest) == Timeouts(script))
            || (&& outcome == Err(Idle) && Bytes(rest) == Bytes(script)
                && WellTimed(rest, frames, position) && Timeouts(rest) + 1 == Timeouts(script))
  {
    var body := codec.enc(envelope);
    Regroup(ToLittleEndian(|body|), body, tail);
    PrefixOfFrame(script, ToLittleEndian(|body|), body + tail, frames, position);
    var (prefix, afterPrefix) := FillFrom(script, LENGTH_PREFIX_LEN, []);
    if prefix.Filled? {
      LittleEndianRoundTrip(|body|);
      assert BodyLen(prefix.bytes) == Ok(|body|);
      BodyOfFrame(codec, envelope, afterPrefix, tail, frames, position + LENGTH_PREFIX_LEN);
    }
  }

  /** The start of a frame is its prefix, or an idle moment before it. */
  lemma {:induction false} PrefixOfFrame(script: Script, prefix: seq<Byte>, tail: seq<Byte>, frames: seq<seq<Byte>>,
                                         position: nat)
    requires |prefix| == LENGTH_PREFIX_LEN && Bytes(script) == prefix + tail
    requires WellTimed(script, frames, position)
    requires forall p :: position < p < position + LENGTH_PREFIX_LEN ==> !AtBoundary(frames, p)
    ensures var (fill, rest) := FillFrom(script, LENGTH_PREFIX_LEN, []);
            || (&& fill == Filled(prefix) && Bytes(rest) == tail
                && WellTimed(rest, frames, position + LENGTH_PREFIX_LEN) && Timeouts(rest) == Timeouts(script))
            || (&& fill == Short(Quiet, 0) && Bytes(rest) == Bytes(script)
                && WellTimed(rest, frames, position) && Timeouts(rest) + 1 == Timeouts(script))
  {
    FillInsideFrame(script, LENGTH_PREFIX_LEN, [], frames, position);
    FillConserves(script, LENGTH_PREFIX_LEN, []);
    var (fill, rest) := FillFrom(script, LENGTH_PREFIX_LEN, []);
    if fill.Filled? {
      assert [] + Bytes(script) == prefix + tail;
      SplitFront(fill.bytes, Bytes(rest), prefix, tail);
    }
  }

  /** Once its prefix is read, the rest of a frame is its body, whatever the splits and interruptions. */
  lemma {:induction false} BodyOfFrame<E(!new)>(codec: Codec<E>, envelope: E, script: Script, tail: seq<Byte>,
                                                frames: seq<seq<Byte>>, position: nat)
    requires Lawful(codec)
    requires Bytes(script) == codec.enc(envelope) + tail
    requires WellTimed(script, frames, position)
    requires forall p :: position <= p < position + |codec.enc(envelope)| ==> !AtBoundary(frames, p)
    ensures var (body, rest) := FillFrom(script, |codec.enc(envelope)|, []);
            && body == Filled(codec.enc(envelope)) && Decoded(codec, body.bytes) == Ok(envelope)
            && Bytes(rest) == tail
            && WellTimed(rest, frames, position + |codec.enc(envelope)|)
            && Timeouts(rest) == Timeouts(script)
  {
    var body := codec.enc(envelope);
    FillConserves(script, |body|, []);
    if body != [] {
      FillInsideFrame(script, |body|, [], frames, position);
    }
    var (fill, rest) := FillFrom(script, |body|, []);
    assert [] + Bytes(script) == body + tail;
    SplitFront(fill.bytes, Bytes(rest), body, tail);
  }

  /** With no frame left, the stream is read as idle moments and then as closed. */
  lemma {:induction false} AfterTheLastFrame<E>(codec: Codec<E>, script: Script, frames: seq<seq<Byte>>, position: nat)
    requires Bytes(script) == [] && WellTimed(script, frames, position)
    ensures var (outcome, rest) := ReadFrame(codec, script);
            || (outcome == Err(Closed) && Timeouts(script) == 0)
            || (outcome == Err(Idle) && Bytes(rest) == [] && WellTimed(rest, frames, position)
                && Timeouts(rest) + 1 == Timeouts(script))
  {
    if script != [] && script[0].Interrupted? {
      AfterTheLastFrame(codec, script[1..], frames, position);
      assert FillFrom(script, LENGTH_PREFIX_LEN, []) == FillFrom(script[1..], LENGTH_PREFIX_LEN, []);
    }
  }

  function WithoutIdle<E>(outcomes: seq<Result<E, FrameError>>): seq<Result<E, FrameError>> {
    if outcomes == [] then []
    else if outcomes[0] == Err(Idle) then WithoutIdle(outcomes[1..])
    else [outcomes[0]] + WithoutIdle(outcomes[1..])
  }

  function IdleCount<E>(outcomes: seq<Result<E, FrameError>>): nat {
    if outcomes == [] then 0
    else (if outcomes[0] == Err(Idle) then 1 else 0) + IdleCount(outcomes[1..])
  }

  function Received<E>(envelopes: seq<E>): seq<Result<E, FrameError>> {
    seq(|envelopes|, i requires 0 <= i < |envelopes| => Ok(envelopes[i]))
  }

  /** From any frame on, what is read is the rest of the envelopes, in order, and then the end. */
  lemma {:induction false} ReadsTheRest<E(!new)>(codec: Codec<E>, envelopes: seq<E>, k: nat, script: Script)
    requires Lawful(codec) && forall e :: e in envelopes ==> |codec.enc(e)| <= MAX_BODY_LEN
    requires k <= |envelopes|
    requires Bytes(script) == Concat(Frames(codec, envelopes)[k..])
    requires WellTimed(script, Frames(codec, envelopes), Offset(Frames(codec, envelopes), k))
    ensures WithoutIdle(ReadAll(codec, script)) == Received(envelopes[k..]) + [Err(Closed)]
    ensures IdleCount(ReadAll(codec, script)) == Timeouts(script)
    decreases Measure(script)
  {
    var (outcome, rest) := ReadFrame(codec, script);
    if k < |envelopes| {
      NextFrame(codec, envelopes, k, script);
    } else {
      var frames := Frames(codec, envelopes);
      AfterTheLastFrame(codec, script, frames, Offset(frames, k));
    }
    if outcome == Err(Idle) {
      ReadsTheRest(codec, envelopes, k, rest);
      AfterAnIdleMoment(codec, script);
    } else if outcome.Ok? {
      ReadsTheRest(codec, envelopes, k + 1, rest);
      AfterAnEnvelope(codec, script);
      OneMoreReceived(envelopes, k);
    } else {
      AfterTheEnd(codec, script);
      assert envelopes[k..] == [];
    }
  }

  lemma {:induction false} AfterAnEnvelope<E>(codec: Codec<E>, script: Script)
    requires ReadFrame(codec, script).0.Ok?
    ensures var (outcome, rest) := ReadFrame(codec, script);
            && WithoutIdle(ReadAll(codec, script)) == [outcome] + WithoutIdle(ReadAll(codec, rest))
            && IdleCount(ReadAll(codec, script)) == IdleCount(ReadAll(codec, rest))
  {
    var (outcome, rest) := ReadFrame(codec, script);
    assert ([outcome] + ReadAll(codec, rest))[1..] == ReadAll(codec, rest);
  }

  lemma {:induction false} AfterAnIdleMoment<E>(codec: Codec<E>, script: Script)
    requires ReadFrame(codec, script).0 == Err(Idle)
    ensures var rest := ReadFrame(codec, script).1;
            && WithoutIdle(ReadAll(codec, script)) == WithoutIdle(ReadAll(codec, rest))
            && IdleCount(ReadAll(codec, script)) == 1 + IdleCount(ReadAll(codec, rest))
  {
    var (outcome, rest) := ReadFrame(codec, script);
    assert ([outcome] + ReadAll(codec, rest))[1..] == ReadAll(codec, rest);
  }

  lemma {:induction false} AfterTheEnd<E>(codec: Codec<E>, script: Script)
    requires !ReadFrame(codec, script).0.Ok? && ReadFrame(codec, script).0 != Err(Idle)
    ensures WithoutIdle(ReadAll(codec, script)) == [ReadFrame(codec, script).0] &&
              IdleCount(ReadAll(codec, script)) == 0
  {
    var outcome := ReadFrame(codec, script).0;
    assert [outcome][1..] == [];
  }

  lemma {:induction false} OneMoreReceived<E>(envelopes: seq<E>, k: nat)
    requires k < |envelopes|
    ensures Received(envelopes[k..]) + [Err(Closed)] ==
              [Ok(envelopes[k])] + (Received(envelopes[k + 1..]) + [Err(Closed)])
  {
  }

  /** However the transport splits the stream, is interrupted or goes quiet between frames, reading it
      gives back exactly the envelopes that were framed, in order, one idle moment for each timeout,
      and then the clean end of the connection. */
  lemma FramingRoundTrip<E(!new)>(codec: Codec<E>, envelopes: seq<E>, script: Script)
    requires Lawful(codec) && forall e :: e in envelopes ==> |codec.enc(e)| <= MAX_BODY_LEN
    requires Bytes(script) == Concat(Frames(codec, envelopes))
    requires WellTimed(script, Frames(codec, envelopes), 0)
    ensures WithoutIdle(ReadAll(codec, script)) == Received(envelopes) + [Err(Closed)]
    ensures IdleCount(ReadAll(codec, script)) == Timeouts(script)
  {
    assert Frames(codec, envelopes)[0..] == Frames(codec, envelopes) && envelopes[0..] == envelopes;
    ReadsTheRest(codec, envelopes, 0, script);
  }

  /* Where a reader stands after any number of reads. */

  /** What the transport has left after `count` reads. */
  function RestAfter<E>(codec: Codec<E>, script: Script, count: nat): Script
    decreases count
  {
    if count == 0 then script else RestAfter(codec, ReadFrame(codec, script).1, count - 1)
  }

  /** A length prefix and exactly the body it announces. */
  predicate IsFrame(frame: seq<Byte>) {
    |frame| >= LENGTH_PREFIX_LEN &&
      FromLittleEndian(frame[..LENGTH_PREFIX_LEN]) == |frame| - LENGTH_PREFIX_LEN <= MAX_BODY_LEN
  }

  predicate GoesOn<E>(outcome: Result<E, FrameError>) {
    outcome.Ok? || outcome == Err(Idle)
  }

  /** The first `count` reads come back with envelopes and idle moments. */
  ghost predicate ReadsWell<E>(codec: Codec<E>, script: Script, count: nat)
    decreases count
  {
    count == 0 || (GoesOn(ReadFrame(codec, script).0) && ReadsWell(codec, ReadFrame(codec, script).1, count - 1))
  }

  /** How many of the first `count` reads come back with envelopes. */
  function EnvelopesRead<E>(codec: Codec<E>, script: Script, count: nat): nat
    decreases count
  {
    if count == 0 then 0
    else (if ReadFrame(codec, script).0.Ok? then 1 else 0) + EnvelopesRead(codec, ReadFrame(codec, script).1, count - 1)
  }

  /** Over every transport, well-behaved or not: while reads come back with envelopes and idle moments,
      the bytes taken off the stream are whole frames, one for each envelope. An idle moment, and with
      it anything the reader sends then, is therefore always between two frames of the peer. */
  lemma {:induction false} IdleIsBetweenFrames<E>(codec: Codec<E>, script: Script, count: nat)
    returns (frames: seq<seq<Byte>>)
    requires ReadsWell(codec, script, count)
    ensures forall i :: 0 <= i < |frames| ==> IsFrame(frames[i])
    ensures |frames| == EnvelopesRead(codec, script, count)
    ensures Bytes(script) == Concat(frames) + Bytes(RestAfter(codec, script, count))
    decreases count
  {
    if count == 0 {
      return [];
    }
    var (outcome, rest) := ReadFrame(codec, script);
    var others := IdleIsBetweenFrames(codec, rest, count - 1);
    if outcome.Ok? {
      var frame := TakesOneFrame(codec, script);
      frames := [frame] + others;
      Regroup(frame, Concat(others), Bytes(RestAfter(codec, rest, count - 1)));
      assert frames[1..] == others;
    } else {
      frames := others;
      ReadsStopAtBoundaries(codec, script);
    }
  }

  /** Reads that are not the last of all of them come back well. */
  lemma {:induction false} ReadsWellBefore<E>(codec: Codec<E>, script: Script, count: nat)
    requires count <= |ReadAll(codec, script)|
    requires count > 0 ==> GoesOn(ReadAll(codec, script)[count - 1])
    ensures ReadsWell(codec, script, count)
    decreases count
  {
    if count > 0 {
      var (outcome, rest) := ReadFrame(codec, script);
      assert ReadAll(codec, script)[0] == outcome;
      assert GoesOn(outcome);
      assert ReadAll(codec, script)[1..] == ReadAll(codec, rest);
      assert count > 1 ==> ReadAll(codec, script)[count - 1] == ReadAll(codec, rest)[count - 2];
      ReadsWellBefore(codec, rest, count - 1);
    }
  }

  /** Reading an envelope takes one whole frame. */
  lemma TakesOneFrame<E>(codec: Codec<E>, script: Script) returns (frame: seq<Byte>)
    requires ReadFrame(codec, script).0.Ok?
    ensures IsFrame(frame) && Bytes(script) == frame + Bytes(ReadFrame(codec, script).1)
  {
    var (outcome, rest) := ReadFrame(codec, script);
    ReadsStopAtBoundaries(codec, script);
    var prefix: seq<Byte>, body: seq<Byte> :|
      && |prefix| == LENGTH_PREFIX_LEN && FromLittleEndian(prefix) == |body| <= MAX_BODY_LEN
      && codec.dec(body) == Some(outcome.value)
      && Bytes(script) == prefix + body + Bytes(rest);
    frame := prefix + body;
    assert frame[..LENGTH_PREFIX_LEN] == prefix;
  }
}
