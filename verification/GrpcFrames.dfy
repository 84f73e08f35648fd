/** `summarizeGRPCFrames` of internal/proxy/grpc.go against the gRPC length-prefixed message format. */
module GrpcFrames {
  import opened Octets

  const MAX_STORED_LENGTHS := 16
  const HEADER_SIZE := 5

  datatype Frame = Frame(compressed: bool, payload: Bytes)

  // The format.

  predicate Fits(f: Frame) {
    |f.payload| < 0x1_0000_0000
  }

  function Size(n: int): Bytes
    requires 0 <= n < 0x1_0000_0000
  {
    [n / 0x100_0000, n / 0x1_0000 % 256, n / 256 % 256, n % 256]
  }

  function Encode(f: Frame): Bytes
    requires Fits(f)
  {
    [if f.compressed then 1 else 0] + Size(|f.payload|) + f.payload
  }

  ghost predicate AllFit(frames: seq<Frame>) {
    forall f | f in frames :: Fits(f)
  }

  ghost function EncodeAll(frames: seq<Frame>): Bytes
    requires AllFit(frames)
  {
    if frames == [] then [] else Encode(frames[0]) + EncodeAll(frames[1..])
  }

  /** The body is a concatenation of length-prefixed messages. */
  ghost predicate WellFormed(body: Bytes) {
    exists frames: seq<Frame> :: AllFit(frames) && EncodeAll(frames) == body
  }

  // Reading the first frame.

  function BigEndian(a: int, b: int, c: int, d: int): int {
    a * 0x100_0000 + b * 0x1_0000 + c * 256 + d
  }

  function SizeAt(body: Bytes): int
    requires |body| >= HEADER_SIZE
  {
    BigEndian(body[1], body[2], body[3], body[4])
  }

  predicate HasFrame(body: Bytes) {
    |body| >= HEADER_SIZE && body[0] <= 1 && |body| - HEADER_SIZE >= SizeAt(body)
  }

  function FirstFrame(body: Bytes): Frame
    requires HasFrame(body)
  {
    Frame(body[0] == 1, body[HEADER_SIZE..HEADER_SIZE + SizeAt(body)])
  }

  function Rest(body: Bytes): Bytes
    requires HasFrame(body)
  {
    body[HEADER_SIZE + SizeAt(body)..]
  }

  lemma SizeRoundTrip(n: int)
    requires 0 <= n < 0x1_0000_0000
    ensures BigEndian(Size(n)[0], Size(n)[1], Size(n)[2], Size(n)[3]) == n
  {
    var m := n / 256;
    var k := m / 256;
    assert n / 0x1_0000 == k && n / 0x100_0000 == k / 256;
    assert n == 256 * m + n % 256 && m == 256 * k + m % 256 && k == 256 * (k / 256) + k % 256;
  }

  lemma SizeInverse(a: Byte, b: Byte, c: Byte, d: Byte)
    ensures 0 <= BigEndian(a, b, c, d) < 0x1_0000_0000
    ensures Size(BigEndian(a, b, c, d)) == [a, b, c, d]
  {
    var n := BigEndian(a, b, c, d);
    var high: int, low: int := a, b;
    var m := high * 0x1_0000 + low * 256 + c;
    var k := high * 256 + low;
    assert n == m * 256 + d && m == k * 256 + c;
    assert n / 256 == m && n % 256 == d && m % 256 == c;
    assert n / 0x1_0000 == k && k % 256 == b && n / 0x100_0000 == a;
  }

  /** An encoded frame is read back, whatever follows it. */
  lemma FirstOfEncoded(f: Frame, rest: Bytes)
    requires Fits(f)
    ensures HasFrame(Encode(f) + rest) && FirstFrame(Encode(f) + rest) == f && Rest(Encode(f) + rest) == rest
  {
    var body := Encode(f) + rest;
    SizeRoundTrip(|f.payload|);
    assert body[1] == Size(|f.payload|)[0] && body[2] == Size(|f.payload|)[1];
    assert body[3] == Size(|f.payload|)[2] && body[4] == Size(|f.payload|)[3];
    assert SizeAt(body) == |f.payload|;
    assert body[HEADER_SIZE..HEADER_SIZE + |f.payload|] == f.payload;
  }

  lemma Pieces(body: Bytes, n: nat)
    requires HEADER_SIZE <= n <= |body|
    ensures body == body[..1] + body[1..5] + body[HEADER_SIZE..n] + body[n..]
  {
  }

  lemma FirstEncodes(body: Bytes)
    requires HasFrame(body)
    ensures Fits(FirstFrame(body)) && body == Encode(FirstFrame(body)) + Rest(body)
  {
    SizeInverse(body[1], body[2], body[3], body[4]);
    var f := FirstFrame(body);
    assert body[..1] == [if f.compressed then 1 else 0];
    assert body[1..5] == [body[1], body[2], body[3], body[4]] == Size(|f.payload|);
    Pieces(body, HEADER_SIZE + SizeAt(body));
  }

  // Reading as many frames as there are.

  function Parsed(body: Bytes): seq<Frame>
    decreases |body|
  {
    if HasFrame(body) then [FirstFrame(body)] + Parsed(Rest(body)) else []
  }

  /** What the frames leave over. */
  function Leftover(body: Bytes): Bytes
    decreases |body|
  {
    if HasFrame(body) then Leftover(Rest(body)) else body
  }

  lemma {:induction false} ParsedIsPrefix(body: Bytes)
    ensures AllFit(Parsed(body)) && body == EncodeAll(Parsed(body)) + Leftover(body)
    decreases |body|
  {
    if HasFrame(body) {
      FirstEncodes(body);
      ParsedIsPrefix(Rest(body));
      assert Parsed(body)[1..] == Parsed(Rest(body));
    }
  }

  /** Any frames that encode to a prefix of the body are the first of the parsed ones. */
  lemma {:induction false} ParsedIsLongest(frames: seq<Frame>, body: Bytes)
    requires AllFit(frames) && EncodeAll(frames) <= body
    ensures frames <= Parsed(body)
    decreases |frames|
  {
    if frames != [] {
      var f := frames[0];
      var tail := TailAfter(frames, body);
      FirstOfEncoded(f, tail);
      ParsedIsLongest(frames[1..], tail);
      assert frames == [f] + frames[1..];
    }
  }

  lemma TailAfter(frames: seq<Frame>, body: Bytes) returns (tail: Bytes)
    requires AllFit(frames) && frames != [] && EncodeAll(frames) <= body
    ensures body == Encode(frames[0]) + tail && EncodeAll(frames[1..]) <= tail
  {
    tail := EncodeAll(frames[1..]) + body[|EncodeAll(frames)|..];
    assert body == EncodeAll(frames) + body[|EncodeAll(frames)|..];
  }

  lemma EncodeEmpty(f: Frame)
    requires Fits(f)
    ensures |Encode(f)| == HEADER_SIZE + |f.payload|
  {
  }

  lemma {:induction false} LongerEncoding(frames: seq<Frame>, more: seq<Frame>)
    requires frames <= more && AllFit(more)
    ensures AllFit(frames) && |EncodeAll(frames)| + HEADER_SIZE * (|more| - |frames|) <= |EncodeAll(more)|
    decreases |more|
  {
    if more != [] {
      EncodeEmpty(more[0]);
      if frames == [] {
        LongerEncoding([], more[1..]);
      } else {
        LongerEncoding(frames[1..], more[1..]);
      }
    }
  }

  /** A body has at most one decomposition, and has one exactly when nothing is left over. */
  lemma DecompositionIsUnique(body: Bytes, frames: seq<Frame>)
    requires AllFit(frames) && EncodeAll(frames) == body
    ensures frames == Parsed(body) && Leftover(body) == []
  {
    ParsedIsLongest(frames, body);
    ParsedIsPrefix(body);
    LongerEncoding(frames, Parsed(body));
  }

  lemma WellFormedIff(body: Bytes)
    ensures WellFormed(body) <==> Leftover(body) == []
  {
    ParsedIsPrefix(body);
    if Leftover(body) == [] {
      assert EncodeAll(Parsed(body)) == body;
    }
    if WellFormed(body) {
      var frames: seq<Frame> :| AllFit(frames) && EncodeAll(frames) == body;
      DecompositionIsUnique(body, frames);
    }
  }

  // The summary.

  datatype ParseError =
    | NoError
    | TruncatedHeader(offset: nat)
    | InvalidFlag(flag: int, offset: nat)
    | TruncatedPayload(offset: nat)

  datatype Summary = Summary(count: nat, compressedCount: nat, lengths: seq<int>, parseErr: ParseError)

  function CompressedCount(frames: seq<Frame>): nat {
    if frames == [] then 0
    else CompressedCount(frames[..|frames| - 1]) + if frames[|frames| - 1].compressed then 1 else 0
  }

  function Lengths(frames: seq<Frame>): seq<int> {
    if frames == [] then [] else Lengths(frames[..|frames| - 1]) + [|frames[|frames| - 1].payload|]
  }

  function Stored(lengths: seq<int>): seq<int> {
    if |lengths| <= MAX_STORED_LENGTHS then lengths else lengths[..MAX_STORED_LENGTHS]
  }

  /** The problem with what is left over, which starts at `offset`. */
  function ErrorAt(left: Bytes, offset: nat): ParseError {
    if left == [] then NoError
    else if |left| < HEADER_SIZE then TruncatedHeader(offset)
    else if left[0] > 1 then InvalidFlag(left[0], offset)
    else TruncatedPayload(offset + HEADER_SIZE)
  }

  function SummaryOf(frames: seq<Frame>, err: ParseError): Summary {
    Summary(|frames|, CompressedCount(frames), Stored(Lengths(frames)), err)
  }

  lemma CountSnoc(frames: seq<Frame>, f: Frame)
    ensures CompressedCount(frames + [f]) == CompressedCount(frames) + if f.compressed then 1 else 0
  {
    assert (frames + [f])[..|frames|] == frames;
  }

  lemma StoredSnoc(frames: seq<Frame>, f: Frame)
    ensures
      var stored := Stored(Lengths(frames));
      Stored(Lengths(frames + [f])) == if |stored| < MAX_STORED_LENGTHS then stored + [|f.payload|] else stored
  {
    assert (frames + [f])[..|frames|] == frames;
  }

  ghost predicate Describes(frames: seq<Frame>, count: int, compressedCount: int, lengths: seq<int>) {
    count == |frames| && compressedCount == CompressedCount(frames) && lengths == Stored(Lengths(frames))
  }

  lemma DescribesSnoc(frames: seq<Frame>, f: Frame, count: int, compressedCount: int, lengths: seq<int>)
    requires Describes(frames, count, compressedCount, lengths)
    ensures Describes(
              frames + [f],
              count + 1,
              if f.compressed then compressedCount + 1 else compressedCount,
              if |lengths| < MAX_STORED_LENGTHS then lengths + [|f.payload|] else lengths)
  {
    CountSnoc(frames, f);
    StoredSnoc(frames, f);
  }

  /** The first sixteen lengths are kept, or all if there are fewer. */
  lemma StoredAre(lengths: seq<int>)
    ensures Stored(lengths) <= lengths
    ensures |Stored(lengths)| == if |lengths| < 16 then |lengths| else 16
  {
  }

  lemma {:induction false} LengthsAt(frames: seq<Frame>, i: nat)
    requires i < |frames|
    ensures |Lengths(frames)| == |frames| && Lengths(frames)[i] == |frames[i].payload|
  {
    if i < |frames| - 1 {
      LengthsAt(frames[..|frames| - 1], i);
    } else if i > 0 {
      LengthsAt(frames[..|frames| - 1], i - 1);
    }
  }

  /** After reading `frames` the loop stands at `offset`. */
  ghost predicate Reached(body: Bytes, offset: nat, frames: seq<Frame>) {
    offset <= |body| && Parsed(body) == frames + Parsed(body[offset..]) && Leftover(body) == Leftover(body[offset..])
  }

  lemma NextFrame(body: Bytes, offset: nat, next: nat, frames: seq<Frame>, f: Frame, more: seq<Frame>)
    requires Reached(body, offset, frames) && more == frames + [f] && HasFrame(body[offset..])
    requires next == offset + HEADER_SIZE + SizeAt(body[offset..]) && f == FirstFrame(body[offset..])
    ensures Reached(body, next, more)
  {
    RestIsSuffix(body, offset);
    Regroup(frames, f, Parsed(body[next..]));
  }

  lemma RestIsSuffix(body: Bytes, offset: nat)
    requires offset <= |body| && HasFrame(body[offset..])
    ensures Rest(body[offset..]) == body[offset + HEADER_SIZE + SizeAt(body[offset..])..]
  {
  }

  lemma Regroup(a: seq<Frame>, f: Frame, b: seq<Frame>)
    ensures a + ([f] + b) == a + [f] + b
  {
  }

  /** Where no frame follows, everything has been read. */
  lemma NoFrame(body: Bytes, offset: nat, frames: seq<Frame>)
    requires Reached(body, offset, frames) && !HasFrame(body[offset..])
    ensures AllFit(Parsed(body)) && frames == Parsed(body)
    ensures Leftover(body) == body[offset..] && offset == |EncodeAll(Parsed(body))|
  {
    ParsedIsPrefix(body);
  }

  /** The checks at the head of a loop turn. */
  method ReadHeader(body: Bytes, offset: nat) returns (err: ParseError, flag: Byte, length: nat)
    requires offset < |body|
    ensures err == NoError <==> HasFrame(body[offset..])
    ensures err == NoError ==>
            length == SizeAt(body[offset..]) && (flag == 1 <==> FirstFrame(body[offset..]).compressed)
    ensures err == NoError ==> length == |FirstFrame(body[offset..]).payload|
    ensures err != NoError ==> err == ErrorAt(body[offset..], offset)
  {
    flag, length := 0, 0;
    if |body| - offset < HEADER_SIZE {
      return TruncatedHeader(offset), flag, length;
    }
    flag := body[offset];
    if flag != 0 && flag != 1 {
      return InvalidFlag(flag, offset), flag, length;
    }
    length := BigEndian(body[offset + 1], body[offset + 2], body[offset + 3], body[offset + 4]);
    assert length == SizeAt(body[offset..]);
    if |body| - (offset + HEADER_SIZE) < length {
      return TruncatedPayload(offset + HEADER_SIZE), flag, length;
    }
    return NoError, flag, length;
  }

  /** The loop, up to the first frame that is not there. */
  method SummarizeLoop(body: Bytes) returns (out: Summary)
    ensures AllFit(Parsed(body))
    ensures out == SummaryOf(Parsed(body), ErrorAt(Leftover(body), |EncodeAll(Parsed(body))|))
  {
    var count, compressedCount, lengths, offset := 0, 0, [], 0;
    ghost var frames: seq<Frame> := [];
    assert body[0..] == body;
    while offset < |body|
      invariant Reached(body, offset, frames)
      invariant Describes(frames, count, compressedCount, lengths)
    {
      var err, flag, length := ReadHeader(body, offset);
      if err != NoError {
        NoFrame(body, offset, frames);
        return Summary(count, compressedCount, lengths, err);
      }
      ghost var f, before, start := FirstFrame(body[offset..]), frames, offset;
      DescribesSnoc(frames, f, count, compressedCount, lengths);
      frames, offset := frames + [f], offset + HEADER_SIZE + length;
      NextFrame(body, start, offset, before, f, frames);
      count := count + 1;
      if flag == 1 {
        compressedCount := compressedCount + 1;
      }
      if |lengths| < MAX_STORED_LENGTHS {
        lengths := lengths + [length];
      }
    }
    NoFrame(body, offset, frames);
    return Summary(count, compressedCount, lengths, NoError);
  }

  lemma ErrorIff(left: Bytes, offset: nat)
    ensures ErrorAt(left, offset) == NoError <==> left == []
  {
  }

  /**
   The summary describes the longest well-formed prefix; the error is empty exactly on
   well-formed bodies and otherwise names the byte where the prefix ends.
   */
  method Summarize(body: Bytes) returns (out: Summary)
    ensures AllFit(Parsed(body))
    ensures out == SummaryOf(Parsed(body), ErrorAt(Leftover(body), |EncodeAll(Parsed(body))|))
    ensures out.parseErr == NoError <==> WellFormed(body)
  {
    WellFormedIff(body);
    ErrorIff(Leftover(body), 0);
    if |body| == 0 {
      return Summary(0, 0, [], NoError);
    }
    out := SummarizeLoop(body);
  }
}
