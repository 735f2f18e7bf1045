/** The wire format of the service: a request is a 4-byte big-endian unsigned
    length followed by that many bytes of audio; a reply is the same length
    header followed by the encoded result. The socket is a stream of segments
    the peer has written; the peer closes after the last one. */
module Framing {
  import opened Outcome
  import Text

  newtype byte = x: int | 0 <= x < 256

  type Bytes = seq<byte>

  /** One more than the largest value of the `!I` format. */
  const LengthLimit: nat := 0x1_0000_0000

  /** The message of `struct.error` when the buffer is not 4 bytes long. */
  const UnpackError: string := "unpack requires a buffer of 4 bytes"

  /** The message of `struct.error` when the value does not fit. */
  const PackError: string := "'I' format requires 0 <= number <= 4294967295"

  /** The message of the `BrokenPipeError` a send to a closed peer raises. */
  const BrokenPipe: string := "[Errno 32] Broken pipe"

  // ---------------------------------------------------------------------
  // The length header

  /** Network byte order: most significant byte first. */
  function EncodeLength(n: nat): (b: Bytes)
    requires n < LengthLimit
    ensures |b| == 4
  {
    [(n / 0x100_0000) as byte, (n / 0x1_0000 % 0x100) as byte, (n / 0x100 % 0x100) as byte, (n % 0x100) as byte]
  }

  function DecodeLength(b: Bytes): (n: nat)
    requires |b| == 4
    ensures n < LengthLimit
  {
    b[0] as nat * 0x100_0000 + b[1] as nat * 0x1_0000 + b[2] as nat * 0x100 + b[3] as nat
  }

  /** Division by one of the header's byte weights is determined by quotient
      and remainder. */
  lemma DivMod(n: nat, d: nat, q: nat, r: nat)
    requires d == 0x100 || d == 0x1_0000 || d == 0x100_0000
    requires r < d && n == q * d + r
    ensures n / d == q && n % d == r
  {
    if d == 0x100 {
      assert n == q * 0x100 + r;
    } else if d == 0x1_0000 {
      assert n == q * 0x1_0000 + r;
    } else {
      assert n == q * 0x100_0000 + r;
    }
  }

  /** Decoding an encoded length gives the length back. */
  lemma DecodeEncode(n: nat)
    requires n < LengthLimit
    ensures DecodeLength(EncodeLength(n)) == n
  {
    var b := EncodeLength(n);
    var q1 := n / 0x100;
    var q2 := q1 / 0x100;
    DivMod(n, 0x1_0000, q2, q1 % 0x100 * 0x100 + n % 0x100);
    DivMod(n, 0x100_0000, q2 / 0x100, (q2 % 0x100) * 0x1_0000 + q1 % 0x100 * 0x100 + n % 0x100);
  }

  /** Encoding a decoded header gives the header back: every 4-byte header
      is the encoding of exactly one length. */
  lemma EncodeDecode(b: Bytes)
    requires |b| == 4
    ensures EncodeLength(DecodeLength(b)) == b
  {
    var n := DecodeLength(b);
    var b0, b1, b2, b3 := b[0] as nat, b[1] as nat, b[2] as nat, b[3] as nat;
    DivMod(n, 0x100_0000, b0, b1 * 0x1_0000 + b2 * 0x100 + b3);
    DivMod(n, 0x1_0000, b0 * 0x100 + b1, b2 * 0x100 + b3);
    DivMod(b0 * 0x100 + b1, 0x100, b0, b1);
    DivMod(n, 0x100, b0 * 0x1_0000 + b1 * 0x100 + b2, b3);
    DivMod(b0 * 0x1_0000 + b1 * 0x100 + b2, 0x100, b0 * 0x100 + b1, b2);
  }

  /** `struct.pack('!I', n)` */
  function Pack(n: nat): (r: Result<Bytes>)
    ensures r.Success? <==> n < LengthLimit
    ensures r.Failure? ==> r.error == PackError
  {
    if n < LengthLimit then Success(EncodeLength(n)) else Failure(PackError)
  }

  /** `struct.unpack('!I', b)[0]` */
  function Unpack(b: Bytes): (r: Result<nat>)
    ensures r.Success? <==> |b| == 4
    ensures r.Failure? ==> r.error == UnpackError
  {
    if |b| == 4 then Success(DecodeLength(b)) else Failure(UnpackError)
  }

  /** Unpacking a packed length gives it back, and a 4-byte header packs
      back to itself. */
  lemma PackUnpack(n: nat, b: Bytes)
    ensures Pack(n).Success? ==> Unpack(Pack(n).value) == Success(n)
    ensures Unpack(b).Success? ==> Pack(Unpack(b).value) == Success(b)
  {
    if n < LengthLimit {
      DecodeEncode(n);
    }
    if |b| == 4 {
      EncodeDecode(b);
    }
  }

  // ---------------------------------------------------------------------
  // The stream

  /** The bytes of the segments, in order. */
  function Flatten(segments: seq<Bytes>): Bytes {
    if segments == [] then [] else segments[0] + Flatten(segments[1..])
  }

  predicate NonEmptySegments(segments: seq<Bytes>) {
    forall i :: 0 <= i < |segments| ==> segments[i] != []
  }

  /** `recv(k)`: up to `k` bytes of the first segment; nothing once the peer
      has closed. */
  function Take(segments: seq<Bytes>, k: nat): (Bytes, seq<Bytes>) {
    if segments == [] then ([], [])
    else if |segments[0]| <= k then (segments[0], segments[1..])
    else (segments[0][..k], [segments[0][k..]] + segments[1..])
  }

  /** A receive takes a prefix of the stream of at most `k` bytes; it is empty
      only when the peer has closed (for `k > 0`), and what is left is the
      rest of the stream. */
  lemma TakeSplits(segments: seq<Bytes>, k: nat)
    requires NonEmptySegments(segments) && k > 0
    ensures var (chunk, rest) := Take(segments, k);
      && |chunk| <= k
      && (chunk == [] <==> segments == [])
      && NonEmptySegments(rest)
      && Flatten(segments) == chunk + Flatten(rest)
  {
    if segments != [] {
      var tail := segments[1..];
      assert NonEmptySegments(tail) by {
        assert forall i :: 0 <= i < |tail| ==> tail[i] == segments[i + 1];
      }
      if |segments[0]| > k {
        SplitFirst(segments[0], tail, k);
        Text.HeadTail(segments);
      }
    }
  }

  /** Splitting the first segment at `k` keeps the stream. */
  lemma SplitFirst(s: Bytes, tail: seq<Bytes>, k: nat)
    requires 0 < k < |s| && NonEmptySegments(tail)
    ensures NonEmptySegments([s[k..]] + tail)
    ensures Flatten([s] + tail) == s[..k] + Flatten([s[k..]] + tail)
  {
    var split := [s[k..]] + tail;
    assert split[1..] == tail && ([s] + tail)[1..] == tail;
    assert forall i :: 1 <= i < |split| ==> split[i] == tail[i - 1];
    Text.AppendAssoc(s[..k], s[k..], Flatten(tail));
    assert s[..k] + s[k..] == s;
  }

  /** The first `n` bytes of `s`, or all of it when it is shorter. */
  function Prefix(s: Bytes, n: nat): (r: Bytes)
    ensures |r| <= n && |r| <= |s| && r == s[..|r|]
    ensures |r| < n ==> r == s
  {
    if |s| <= n then s else s[..n]
  }

  /** The socket of one client: the segments still to arrive, whether sends
      fail, the sends made, and whether it is closed. */
  class Connection {
    var incoming: seq<Bytes>
    var broken: bool
    var sent: seq<Bytes>
    var closed: bool
    /** Each `recv` so far, in order: the size asked for and the size returned. */
    ghost var recvs: seq<(nat, nat)>

    predicate Valid()
      reads this
    {
      NonEmptySegments(incoming)
    }

    /** The bytes still to arrive. */
    function Stream(): Bytes
      reads this
    {
      Flatten(incoming)
    }

    constructor (segments: seq<Bytes>, failing: bool)
      requires NonEmptySegments(segments)
      ensures Valid() && incoming == segments && broken == failing && sent == [] && !closed && recvs == []
    {
      recvs := [];
      incoming := segments;
      broken := failing;
      sent := [];
      closed := false;
    }

    method Recv(k: nat) returns (chunk: Bytes)
      requires Valid() && k > 0
      modifies this
      ensures Valid()
      ensures (chunk, incoming) == Take(old(incoming), k)
      ensures recvs == old(recvs) + [(k, |chunk|)]
      ensures broken == old(broken) && sent == old(sent) && closed == old(closed)
    {
      TakeSplits(incoming, k);
      var (c, rest) := Take(incoming, k);
      chunk := c;
      incoming := rest;
      recvs := recvs + [(k, |chunk|)];
    }

    /** `send(data)`: the whole buffer, or `BrokenPipeError`. */
    method Send(data: Bytes) returns (ok: bool)
      modifies this
      ensures ok == !broken
      ensures sent == old(sent) + (if ok then [data] else [])
      ensures incoming == old(incoming) && broken == old(broken) && closed == old(closed)
    {
      if broken {
        return false;
      }
      sent := sent + [data];
      return true;
    }

    method Close()
      modifies this
      ensures closed
      ensures incoming == old(incoming) && broken == old(broken) && sent == old(sent)
    {
      closed := true;
    }
  }

  // ---------------------------------------------------------------------
  // Receiving a request

  /** What the header read yields: the peer closed at once, a header of 1 to
      3 bytes (which `struct.unpack` rejects), or the declared length with the
      audio bytes received for it. */
  datatype Request = Hangup | Malformed(error: string) | Audio(length: nat, data: Bytes)

  /** The request a client's segments make: the first receive of four bytes is
      the header, and the audio is the declared number of bytes of what
      follows, or all of it when the peer closes early. */
  function Parse(segments: seq<Bytes>): (r: Request)
    ensures r.Audio? ==> |r.data| <= r.length
  {
    var (h, rest) := Take(segments, 4);
    if h == [] then Hangup
    else match Unpack(h)
      case Failure(e) => Malformed(e)
      case Success(n) => Audio(n, Prefix(Flatten(rest), n))
  }

  /** The bytes returned by the receives of `log`. */
  function Received(log: seq<(nat, nat)>): nat
  {
    if log == [] then 0 else Received(log[..|log| - 1]) + log[|log| - 1].1
  }

  /** What the payload loop asks for once `got` of `length` bytes are in:
      `min(4096, data_length - len(audio_data))`. */
  function Want(length: nat, got: nat): int
  {
    if 4096 < length - got then 4096 else length - got
  }

  /** From position `from` on, every receive asked for exactly `Want` of the
      bytes the receives before it returned. */
  ghost predicate AsksFollow(log: seq<(nat, nat)>, from: nat, length: nat)
    requires from <= |log|
  {
    forall i :: from <= i < |log| ==> log[i].0 == Want(length, Received(log[from..i]))
  }

  lemma AsksExtend(log: seq<(nat, nat)>, from: nat, length: nat, k: nat, c: nat)
    requires from <= |log| && AsksFollow(log, from, length)
    requires k == Want(length, Received(log[from..]))
    ensures AsksFollow(log + [(k, c)], from, length)
    ensures Received((log + [(k, c)])[from..]) == Received(log[from..]) + c
  {
    var log' := log + [(k, c)];
    assert log'[from..][..|log'[from..]| - 1] == log[from..];
    forall i | from <= i < |log'|
      ensures log'[i].0 == Want(length, Received(log'[from..i]))
    {
      assert log'[from..i] == log[from..i];
      if i < |log| {
        assert log'[i] == log[i];
      } else {
        assert log[from..i] == log[from..];
      }
    }
  }

  /** The payload loop: each receive asks for `min(4096, remaining)` bytes,
      and a closed peer ends it early. */
  method ReceivePayload(conn: Connection, length: nat) returns (data: Bytes)
    requires conn.Valid()
    modifies conn
    ensures conn.Valid()
    ensures data == Prefix(old(conn.Stream()), length)
    ensures old(conn.Stream()) == data + conn.Stream()
    ensures |old(conn.recvs)| <= |conn.recvs| && AsksFollow(conn.recvs, |old(conn.recvs)|, length)
    ensures Received(conn.recvs[|old(conn.recvs)|..]) == |data|
    ensures conn.broken == old(conn.broken) && conn.sent == old(conn.sent) && conn.closed == old(conn.closed)
  {
    data := [];
    while |data| < length
      invariant conn.Valid()
      invariant |data| <= length
      invariant old(conn.Stream()) == data + conn.Stream()
      invariant |old(conn.recvs)| <= |conn.recvs| && AsksFollow(conn.recvs, |old(conn.recvs)|, length)
      invariant Received(conn.recvs[|old(conn.recvs)|..]) == |data|
      invariant conn.broken == old(conn.broken) && conn.sent == old(conn.sent) && conn.closed == old(conn.closed)
      decreases length - |data|
    {
      var want := if 4096 < length - |data| then 4096 else length - |data|;
      TakeSplits(conn.incoming, want);
      ghost var log := conn.recvs;
      var chunk := conn.Recv(want);
      AsksExtend(log, |old(conn.recvs)|, length, want, |chunk|);
      if chunk == [] {
        assert conn.Stream() == [] && old(conn.Stream()) == data + [];
        break;
      }
      Text.AppendAssoc(data, chunk, conn.Stream());
      data := data + chunk;
    }
    assert old(conn.Stream())[..|data|] == data;
  }

  /** The header read followed by the payload loop. */
  method ReceiveRequest(conn: Connection) returns (req: Request)
    requires conn.Valid()
    modifies conn
    ensures conn.Valid()
    ensures req == Parse(old(conn.incoming))
    ensures conn.broken == old(conn.broken) && conn.sent == old(conn.sent) && conn.closed == old(conn.closed)
  {
    TakeSplits(conn.incoming, 4);
    var header := conn.Recv(4);
    if header == [] {
      return Hangup;
    }
    var length := Unpack(header);
    if length.Failure? {
      return Malformed(length.error);
    }
    var data := ReceivePayload(conn, length.value);
    return Audio(length.value, data);
  }

  /** An empty stream is a hang-up; a short first segment is a malformed
      header however much follows it. */
  lemma ParseHeader(segments: seq<Bytes>)
    ensures segments == [] ==> Parse(segments) == Hangup
    ensures segments != [] && 0 < |segments[0]| < 4 ==> Parse(segments) == Malformed(UnpackError)
  {
  }

  /** A client that writes the encoded length of its audio and then the audio
      has that audio received, whole, however the bytes are split. */
  lemma {:induction false} ParseFramed(segments: seq<Bytes>, audio: Bytes)
    requires NonEmptySegments(segments) && |audio| < LengthLimit
    requires segments != [] && |segments[0]| >= 4
    requires Flatten(segments) == EncodeLength(|audio|) + audio
    ensures Parse(segments) == Audio(|audio|, audio)
  {
    TakeSplits(segments, 4);
    var (h, rest) := Take(segments, 4);
    assert h == segments[0][..4];
    assert segments[0] + Flatten(segments[1..]) == Flatten(segments);
    assert h == Flatten(segments)[..4];
    assert h == EncodeLength(|audio|);
    DecodeEncode(|audio|);
    assert Flatten(rest) == audio;
  }

  // ---------------------------------------------------------------------
  // Sending a reply

  /** The two sends of a reply frame: header, then payload; `struct.pack`
      raises for a payload of 2^32 bytes or more. */
  function Frame(payload: Bytes): Result<seq<Bytes>> {
    match Pack(|payload|)
    case Failure(e) => Failure(e)
    case Success(h) => Success([h, payload])
  }

  /** What reaches the peer from the error handler: the frame of the error
      result, or nothing when that frame cannot be built or sent (the
      handler swallows its own exceptions). */
  function ErrorFrames(e: string, encode: Result<string> -> Bytes, failing: bool): seq<Bytes> {
    match Frame(encode(Failure(e)))
    case Success(f) => if failing then [] else f
    case Failure(_) => []
  }

  /** What reaches the peer when a result is sent: its frame, or, when the
      frame cannot be built or sent, whatever the error handler sends. */
  function ReplyFrames(reply: Result<string>, encode: Result<string> -> Bytes, failing: bool): seq<Bytes> {
    match Frame(encode(reply))
    case Success(f) => if failing then ErrorFrames(BrokenPipe, encode, failing) else f
    case Failure(e) => ErrorFrames(e, encode, failing)
  }

  /** The error handler of `handle_client`. */
  method SendError(conn: Connection, e: string, encode: Result<string> -> Bytes)
    modifies conn
    ensures conn.sent == old(conn.sent) + ErrorFrames(e, encode, conn.broken)
    ensures conn.incoming == old(conn.incoming) && conn.broken == old(conn.broken) && conn.closed == old(conn.closed)
  {
    var response := encode(Failure(e));
    var header := Pack(|response|);
    if header.Failure? {
      return;
    }
    var ok := conn.Send(header.value);
    if !ok {
      return;
    }
    ok := conn.Send(response);
  }

  /** The two sends of the result, falling back to the error handler. */
  method SendReply(conn: Connection, reply: Result<string>, encode: Result<string> -> Bytes)
    modifies conn
    ensures conn.sent == old(conn.sent) + ReplyFrames(reply, encode, conn.broken)
    ensures conn.incoming == old(conn.incoming) && conn.broken == old(conn.broken) && conn.closed == old(conn.closed)
  {
    var response := encode(reply);
    var header := Pack(|response|);
    if header.Failure? {
      SendError(conn, header.error, encode);
      return;
    }
    var ok := conn.Send(header.value);
    if !ok {
      SendError(conn, BrokenPipe, encode);
      return;
    }
    // A connection that took the header takes the payload as well, so the
    // error handler is not reached from this send.
    ok := conn.Send(response);
  }

  /** Whatever is sent is one well-formed frame: a header that decodes to the
      length of the payload after it. */
  predicate Framed(out: seq<Bytes>) {
    out == [] || (|out| == 2 && |out[0]| == 4 && DecodeLength(out[0]) == |out[1]|)
  }

  lemma FramesFramed(payload: Bytes)
    ensures Frame(payload).Success? ==> Framed(Frame(payload).value)
  {
    if |payload| < LengthLimit {
      DecodeEncode(|payload|);
    }
  }

  lemma ErrorFramesFramed(e: string, encode: Result<string> -> Bytes, failing: bool)
    ensures Framed(ErrorFrames(e, encode, failing))
    ensures ErrorFrames(e, encode, failing) != [] ==> ErrorFrames(e, encode, failing)[1] == encode(Failure(e))
  {
    FramesFramed(encode(Failure(e)));
  }

  /** A reply reaches the peer as one frame holding the encoded result, or as
      one frame holding an encoded error, or not at all. */
  lemma ReplyFramesFramed(reply: Result<string>, encode: Result<string> -> Bytes, failing: bool)
    ensures Framed(ReplyFrames(reply, encode, failing))
    ensures var out := ReplyFrames(reply, encode, failing);
      out != [] ==> out[1] == encode(reply) || exists e :: out[1] == encode(Failure(e))
  {
    FramesFramed(encode(reply));
    match Frame(encode(reply))
    case Success(f) =>
      ErrorFramesFramed(BrokenPipe, encode, failing);
    case Failure(e) =>
      ErrorFramesFramed(e, encode, failing);
  }

  /** On a working connection a result that fits is sent as its frame. */
  lemma ReplySent(reply: Result<string>, encode: Result<string> -> Bytes)
    requires |encode(reply)| < LengthLimit
    ensures ReplyFrames(reply, encode, false) == [EncodeLength(|encode(reply)|), encode(reply)]
  {
  }

  /** A broken connection receives nothing. */
  lemma BrokenGetsNothing(reply: Result<string>, encode: Result<string> -> Bytes)
    ensures ReplyFrames(reply, encode, true) == []
  {
  }
}
