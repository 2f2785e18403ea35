/** Length-prefixed frames over a byte stream. */
module Framing {
  import opened Prelude
  import opened Protocol

  const HEADER_SIZE := 4
  const MAX_FRAME_SIZE := 1_048_576

  datatype ReadError = EOF | UnexpectedEOF | EmptyFrame | FrameTooLarge | BadMessage(error: Error)

  // ---- Frames ----

  /** The length as an unsigned 32-bit big-endian number: larger lengths wrap around. */
  function Header(length: nat): string {
    var n := length % 0x1_0000_0000;
    var q := n / 0x100;
    var r := q / 0x100;
    [(r / 0x100) as char, (r % 0x100) as char, (q % 0x100) as char, (n % 0x100) as char]
  }

  function Length(header: string): nat
    requires |header| == HEADER_SIZE
  {
    ((header[0] as int * 0x100 + header[1] as int) * 0x100 + header[2] as int) * 0x100 + header[3] as int
  }

  lemma {:induction false} HeaderReadsBack(length: nat)
    ensures Length(Header(length)) == length <==> length < 0x1_0000_0000
  {
    var n := length % 0x1_0000_0000;
    var q := n / 0x100;
    var r := q / 0x100;
    assert Length(Header(length)) == n;
  }

  /** Most significant byte first. */
  lemma HeaderIsBigEndian(length: nat, i: nat)
    requires length < 0x1_0000_0000 && i < HEADER_SIZE
    ensures |Header(length)| == HEADER_SIZE
    ensures Header(length)[i] as int == length / [0x100_0000, 0x1_0000, 0x100, 1][i] % 0x100
  {
    assert length / 0x100 / 0x100 == length / 0x1_0000 && length / 0x1_0000 / 0x100 == length / 0x100_0000;
    assert length / 0x100_0000 < 0x100;
  }

  function Frame(payload: string): string {
    Header(|payload|) + payload
  }

  function Frames(payloads: seq<string>): string {
    if payloads == [] then "" else Frame(payloads[0]) + Frames(payloads[1..])
  }

  // ---- The writer ----

  /** Where the bytes go. Each write takes at least one byte, or fails having taken some. */
  class Stream {
    var bytes: string

    constructor ()
      ensures bytes == ""
    {
      bytes := "";
    }

    method Write(data: string) returns (n: nat, ok: bool)
      modifies this
      ensures n <= |data| && bytes == old(bytes) + data[..n]
      ensures ok && data != "" ==> n > 0
    {
      ok := *;
      var k: nat :| k <= |data| && (data != "" ==> k > 0);
      n := if ok || k == 0 then k else k - 1;
      bytes := bytes + data[..n];
    }
  }

  class FrameWriter {
    const w: Stream

    constructor (w: Stream)
      ensures this.w == w
    {
      this.w := w;
    }

    method WriteAll(data: string) returns (ok: bool)
      modifies w
      ensures old(w.bytes) <= w.bytes <= old(w.bytes) + data
      ensures ok ==> w.bytes == old(w.bytes) + data
    {
      var left := data;
      while |left| > 0
        invariant old(w.bytes) <= w.bytes && w.bytes + left == old(w.bytes) + data
        decreases |left|
      {
        var n;
        ghost var before := w.bytes + left;
        n, ok := w.Write(left);
        assert w.bytes + left[n..] == before;
        left := left[n..];
        if !ok {
          return;
        }
      }
      ok := true;
    }

    /** Sends the whole frame, or nothing of an invalid message, or on failure a prefix. */
    method WriteMessage(m: Message) returns (ok: bool)
      modifies w
      ensures Marshal(m).Err? ==> !ok && w.bytes == old(w.bytes)
      ensures Marshal(m).Ok? ==> old(w.bytes) <= w.bytes <= old(w.bytes) + Frame(Payload(m))
      ensures ok ==> Marshal(m).Ok? && w.bytes == old(w.bytes) + Frame(Payload(m))
    {
      var payload := Marshal(m);
      if payload.Err? {
        return false;
      }
      ok := WriteFrame(payload.value);
    }

    /** The write loop of a client on the messages of its queue: it ends at the first failure. */
    method WriteQueue(ms: seq<Message>) returns (sent: nat)
      modifies w
      ensures sent <= |ms| && AllMarshal(ms[..sent])
      ensures QueueWritten(old(w.bytes), ms, sent, w.bytes)
    {
      sent := 0;
      ghost var before := w.bytes;
      while sent < |ms|
        invariant sent <= |ms| && AllMarshal(ms[..sent])
        invariant w.bytes == before + Written(ms[..sent])
        decreases |ms| - sent
      {
        WrittenOneMore(before, ms, sent);
        var ok := WriteMessage(ms[sent]);
        if !ok {
          return;
        }
        sent := sent + 1;
      }
      assert ms[..sent] == ms;
    }

    method WriteFrame(payload: string) returns (ok: bool)
      modifies w
      ensures old(w.bytes) <= w.bytes <= old(w.bytes) + Frame(payload)
      ensures ok ==> w.bytes == old(w.bytes) + Frame(payload)
    {
      var header := Header(|payload|);
      ok := WriteAll(header);
      assert old(w.bytes) + Frame(payload) == old(w.bytes) + header + payload;
      if ok {
        ok := WriteAll(payload);
      }
    }
  }

  // ---- The reader ----

  /** One ReadMessage on the input s: its answer and the input that is left. */
  function ReadOne<M>(s: string, decode: string -> Result<M, Error>): (Result<M, ReadError>, string) {
    if |s| == 0 then (Err(EOF), "")
    else if |s| < HEADER_SIZE then (Err(UnexpectedEOF), "")
    else
      var n, payload := Length(s[..HEADER_SIZE]), s[HEADER_SIZE..];
      if n == 0 then (Err(EmptyFrame), payload)
      else if n > MAX_FRAME_SIZE then (Err(FrameTooLarge), payload)
      else if |payload| == 0 then (Err(EOF), "")
      else if |payload| < n then (Err(UnexpectedEOF), "")
      else match decode(payload[..n])
        case Ok(m) => (Ok(m), payload[n..])
        case Err(e) => (Err(BadMessage(e)), payload[n..])
  }

  /** Reading until the first error. */
  function ReadAll<M>(s: string, decode: string -> Result<M, Error>): (seq<M>, ReadError)
    decreases |s|
  {
    var (r, rest) := ReadOne(s, decode);
    match r
    case Err(e) => ([], e)
    case Ok(m) => var (ms, e) := ReadAll(rest, decode); ([m] + ms, e)
  }

  class FrameReader {
    var input: string

    constructor (input: string)
      ensures this.input == input
    {
      this.input := input;
    }

    /** io.ReadFull: EOF only if nothing at all could be read. */
    method ReadFull(n: nat) returns (r: Result<string, ReadError>)
      requires n > 0
      modifies this
      ensures |old(input)| >= n ==> r == Ok(old(input)[..n]) && input == old(input)[n..]
      ensures |old(input)| < n ==> r == Err(if old(input) == "" then EOF else UnexpectedEOF) && input == ""
    {
      if |input| >= n {
        r := Ok(input[..n]);
        input := input[n..];
      } else {
        r := Err(if |input| == 0 then EOF else UnexpectedEOF);
        input := "";
      }
    }

    method ReadMessage() returns (r: Result<Message, ReadError>)
      modifies this
      ensures (r, input) == ReadOne(old(input), Unmarshal)
    {
      var header := ReadFull(HEADER_SIZE);
      if header.Err? {
        return Err(header.error);
      }
      var length := Length(header.value);
      if length == 0 {
        return Err(EmptyFrame);
      }
      if length > MAX_FRAME_SIZE {
        return Err(FrameTooLarge);
      }
      var payload := ReadFull(length);
      if payload.Err? {
        return Err(payload.error);
      }
      match Unmarshal(payload.value) {
        case Ok(m) => r := Ok(m);
        case Err(e) => r := Err(BadMessage(e));
      }
    }
  }

  /** A header alone decides about a frame that is empty or too large: reading ends there, whatever
      follows. Of all other lengths none ends it. */
  lemma HeaderDecides<M>(length: nat, rest: string, decode: string -> Result<M, Error>)
    requires length < 0x1_0000_0000
    ensures length == 0 ==> ReadAll(Header(length) + rest, decode) == ([], EmptyFrame)
    ensures length > 1_048_576 ==> ReadAll(Header(length) + rest, decode) == ([], FrameTooLarge)
    ensures 1 <= length <= 1_048_576 ==>
              ReadOne(Header(length) + rest, decode).0 !in {Err(EmptyFrame), Err(FrameTooLarge)}
  {
    HeaderReadsBack(length);
    var s := Header(length) + rest;
    assert s[..HEADER_SIZE] == Header(length) && s[HEADER_SIZE..] == rest;
  }

  // ---- Every stream of frames, for every codec that reads its own payloads ----

  /** The payloads decode to the messages and have sizes the reader takes. */
  ghost predicate Encodes<M>(payloads: seq<string>, ms: seq<M>, decode: string -> Result<M, Error>) {
    && |payloads| == |ms|
    && forall i :: 0 <= i < |ms| ==> 1 <= |payloads[i]| <= MAX_FRAME_SIZE && decode(payloads[i]) == Ok(ms[i])
  }

  lemma FrameReadsBack<M>(payload: string, m: M, rest: string, decode: string -> Result<M, Error>)
    requires 1 <= |payload| <= MAX_FRAME_SIZE && decode(payload) == Ok(m)
    ensures ReadOne(Frame(payload) + rest, decode) == (Ok(m), rest)
  {
    var s := Frame(payload) + rest;
    HeaderReadsBack(|payload|);
    assert s[..HEADER_SIZE] == Header(|payload|);
    assert s[HEADER_SIZE..] == payload + rest;
    assert (payload + rest)[..|payload|] == payload && (payload + rest)[|payload|..] == rest;
  }

  lemma ReadsOneMore<M>(payload: string, m: M, rest: string, decode: string -> Result<M, Error>)
    requires 1 <= |payload| <= MAX_FRAME_SIZE && decode(payload) == Ok(m)
    ensures ReadAll(Frame(payload) + rest, decode) == ([m] + ReadAll(rest, decode).0, ReadAll(rest, decode).1)
  {
    FrameReadsBack(payload, m, rest, decode);
  }

  lemma Regroup<T>(a: seq<T>, b: seq<T>, c: seq<T>)
    ensures a + b + c == a + (b + c)
  {}

  /** A written stream followed by anything reads as its messages, then as what follows. */
  lemma {:induction false} StreamThen<M>(payloads: seq<string>, ms: seq<M>, tail: string, decode: string -> Result<M, Error>)
    requires Encodes(payloads, ms, decode)
    ensures ReadAll(Frames(payloads) + tail, decode) == (ms + ReadAll(tail, decode).0, ReadAll(tail, decode).1)
  {
    var (got, end) := ReadAll(tail, decode);
    if ms == [] {
      assert Frames(payloads) + tail == tail && ms + got == got;
    } else {
      var rest := Frames(payloads[1..]) + tail;
      StreamThen(payloads[1..], ms[1..], tail, decode);
      ReadsOneMore(payloads[0], ms[0], rest, decode);
      Regroup(Frame(payloads[0]), Frames(payloads[1..]), tail);
      Regroup([ms[0]], ms[1..], got);
      assert [ms[0]] + ms[1..] == ms;
    }
  }

  /** Reading a written stream gives back the messages, then the end of input. */
  lemma StreamReadsBack<M>(payloads: seq<string>, ms: seq<M>, decode: string -> Result<M, Error>)
    requires Encodes(payloads, ms, decode)
    ensures ReadAll(Frames(payloads), decode) == (ms, EOF)
  {
    StreamThen(payloads, ms, "", decode);
    assert Frames(payloads) + "" == Frames(payloads) && ms + [] == ms;
    assert ReadAll("", decode) == ([], EOF);
  }

  /** Successive frames make up the stream of the whole list. */
  lemma {:induction false} FramesAppend(payloads: seq<string>, payload: string)
    ensures Frames(payloads + [payload]) == Frames(payloads) + Frame(payload)
  {
    if payloads == [] {
      assert payloads + [payload] == [payload] && [payload][1..] == [];
    } else {
      FramesAppend(payloads[1..], payload);
      assert (payloads + [payload])[1..] == payloads[1..] + [payload];
    }
  }

  /** How many frames are whole among the first k bytes, and how many bytes are left over. */
  function Whole(payloads: seq<string>, k: nat): (n: nat)
    ensures n <= |payloads|
  {
    if payloads == [] || k < |Frame(payloads[0])| then 0
    else 1 + Whole(payloads[1..], k - |Frame(payloads[0])|)
  }

  function LeftOver(payloads: seq<string>, k: nat): nat {
    if payloads == [] || k < |Frame(payloads[0])| then k
    else LeftOver(payloads[1..], k - |Frame(payloads[0])|)
  }

  /** How a reader ends that meets this many bytes of an unfinished frame. */
  function EndAfter(leftOver: nat): ReadError {
    if leftOver == 0 || leftOver == HEADER_SIZE then EOF else UnexpectedEOF
  }

  lemma CutFrame<M>(payload: string, s: string, decode: string -> Result<M, Error>)
    requires 1 <= |payload| <= MAX_FRAME_SIZE
    requires s <= Frame(payload) && |s| < |Frame(payload)|
    ensures ReadAll(s, decode) == ([], EndAfter(|s|))
  {
    HeaderReadsBack(|payload|);
    if |s| >= HEADER_SIZE {
      assert s[..HEADER_SIZE] == Frame(payload)[..HEADER_SIZE] == Header(|payload|);
    }
  }

  lemma PrefixBehind<T>(xs: seq<T>, n: nat)
    requires 1 <= n <= |xs|
    ensures xs[..n] == [xs[0]] + xs[1..][..n - 1]
  {}

  lemma CutBehindFrame<M>(payload: string, m: M, frames: string, k: nat, decode: string -> Result<M, Error>)
    requires 1 <= |payload| <= MAX_FRAME_SIZE && decode(payload) == Ok(m)
    requires |Frame(payload)| <= k <= |Frame(payload)| + |frames|
    ensures var rest := frames[..k - |Frame(payload)|];
            ReadAll((Frame(payload) + frames)[..k], decode) == ([m] + ReadAll(rest, decode).0, ReadAll(rest, decode).1)
  {
    CutBehind(Frame(payload), frames, k);
    ReadsOneMore(payload, m, frames[..k - |Frame(payload)|], decode);
  }

  lemma CutBehind(a: string, b: string, k: nat)
    requires |a| <= k <= |a| + |b|
    ensures (a + b)[..k] == a + b[..k - |a|]
  {}

  /** A stream cut after k bytes yields its whole frames and then an error. The error is a plain
      end of input exactly when the cut falls between two frames or just behind a header. */
  lemma {:induction false} CutStreamReadsPrefix<M>(payloads: seq<string>, ms: seq<M>, k: nat,
                                                   decode: string -> Result<M, Error>)
    requires Encodes(payloads, ms, decode)
    requires k <= |Frames(payloads)|
    ensures ReadAll(Frames(payloads)[..k], decode) ==
              (ms[..Whole(payloads, k)], EndAfter(LeftOver(payloads, k)))
  {
    if ms == [] || k < |Frame(payloads[0])| {
      CutInFirst(payloads, ms, k, decode);
    } else {
      var k' := k - |Frame(payloads[0])|;
      CutStreamReadsPrefix(payloads[1..], ms[1..], k', decode);
      CutBehindFrame(payloads[0], ms[0], Frames(payloads[1..]), k, decode);
      CountsBehindFrame(payloads, ms, k);
    }
  }

  lemma CutInFirst<M>(payloads: seq<string>, ms: seq<M>, k: nat, decode: string -> Result<M, Error>)
    requires Encodes(payloads, ms, decode)
    requires k <= |Frames(payloads)| && (ms == [] || k < |Frame(payloads[0])|)
    ensures ReadAll(Frames(payloads)[..k], decode) == ([], EndAfter(k))
  {
    if ms == [] {
      assert Frames(payloads)[..k] == "";
    } else {
      assert Frames(payloads)[..k] == Frame(payloads[0])[..k];
      CutFrame(payloads[0], Frame(payloads[0])[..k], decode);
    }
  }

  lemma CountsBehindFrame<M>(payloads: seq<string>, ms: seq<M>, k: nat)
    requires payloads != [] && |ms| == |payloads| && k >= |Frame(payloads[0])|
    ensures var k' := k - |Frame(payloads[0])|;
            && LeftOver(payloads, k) == LeftOver(payloads[1..], k')
            && ms[..Whole(payloads, k)] == [ms[0]] + ms[1..][..Whole(payloads[1..], k')]
  {
    PrefixBehind(ms, Whole(payloads, k));
  }

  // ---- The messages of the protocol ----

  ghost predicate Sendable(m: Message) {
    CanSend(m) && AllValidUtf8(m) && m.stamp.offset % 60 == 0
  }

  function Payload(m: Message): string {
    match Marshal(m)
    case Ok(text) => text
    case Err(_) => ""
  }

  function Payloads(ms: seq<Message>): seq<string> {
    seq(|ms|, i requires 0 <= i < |ms| => Payload(ms[i]))
  }

  /** The protocol's own codec is one of those the results above are about: no frame it writes trips
      the reader's size checks or wraps its length. */
  lemma PayloadsEncode(ms: seq<Message>)
    requires forall i :: 0 <= i < |ms| ==> Sendable(ms[i])
    ensures Encodes(Payloads(ms), ms, Unmarshal)
  {
    forall i | 0 <= i < |ms|
      ensures 1 <= |Payloads(ms)[i]| <= MAX_FRAME_SIZE && Unmarshal(Payloads(ms)[i]) == Ok(ms[i])
    {
      MarshalledSize(ms[i]);
      RoundTripIff(ms[i]);
    }
  }

  lemma MessagesReadBack(ms: seq<Message>)
    requires forall i :: 0 <= i < |ms| ==> Sendable(ms[i])
    ensures ReadAll(Frames(Payloads(ms)), Unmarshal) == (ms, EOF)
  {
    PayloadsEncode(ms);
    StreamReadsBack(Payloads(ms), ms, Unmarshal);
  }

  /** A message that the other end refuses ends the stream there, whatever was written after it. */
  lemma RefusedMessageEndsStream(ms: seq<Message>, m: Message, rest: string)
    requires forall i :: 0 <= i < |ms| ==> Sendable(ms[i])
    requires CanSend(m) && !(WithinLimits(Received(m)) && !T.IsZero(T.WholeMinutes(m.stamp)))
    ensures var (got, end) := ReadAll(Frames(Payloads(ms)) + (Frame(Payload(m)) + rest), Unmarshal);
            got == ms && end.BadMessage?
  {
    PayloadsEncode(ms);
    StreamThen(Payloads(ms), ms, Frame(Payload(m)) + rest, Unmarshal);
    MarshalledSize(m);
    AcceptedIff(m);
    RefusedFrame(Payload(m), rest, Unmarshal);
    assert ms + [] == ms;
  }

  lemma RefusedFrame<M>(payload: string, rest: string, decode: string -> Result<M, Error>)
    requires 1 <= |payload| <= MAX_FRAME_SIZE && decode(payload).Err?
    ensures ReadAll(Frame(payload) + rest, decode) == ([], BadMessage(decode(payload).error))
  {
    var s := Frame(payload) + rest;
    HeaderReadsBack(|payload|);
    assert s[..HEADER_SIZE] == Header(|payload|);
    assert s[HEADER_SIZE..] == payload + rest;
    assert (payload + rest)[..|payload|] == payload;
  }

  // ---- What a series of writes leaves to read ----

  predicate AllMarshal(ms: seq<Message>) {
    ms == [] || (AllMarshal(ms[..|ms| - 1]) && Marshal(ms[|ms| - 1]).Ok?)
  }

  /** What the messages put on the wire, one after the other. */
  function Written(ms: seq<Message>): string {
    if ms == [] then "" else Written(ms[..|ms| - 1]) + Frame(Payload(ms[|ms| - 1]))
  }

  /** The first sent messages are written whole, and of the next one, if there is one, a part. */
  ghost predicate QueueWritten(before: string, ms: seq<Message>, sent: nat, bytes: string)
    requires sent <= |ms|
  {
    if sent == |ms| then bytes == before + Written(ms)
    else before + Written(ms[..sent]) <= bytes <= before + Written(ms[..sent + 1])
  }

  lemma WrittenOneMore(before: string, ms: seq<Message>, n: nat)
    requires n < |ms|
    ensures before + Written(ms[..n + 1]) == before + Written(ms[..n]) + Frame(Payload(ms[n]))
    ensures AllMarshal(ms[..n + 1]) <==> AllMarshal(ms[..n]) && Marshal(ms[n]).Ok?
  {
    assert ms[..n + 1][..n] == ms[..n];
    Regroup(before, Written(ms[..n]), Frame(Payload(ms[n])));
  }

  lemma {:induction false} WrittenIsFrames(ms: seq<Message>)
    ensures Written(ms) == Frames(Payloads(ms))
  {
    if ms != [] {
      var n := |ms| - 1;
      WrittenIsFrames(ms[..n]);
      PayloadsOneMore(ms);
      FramesAppend(Payloads(ms[..n]), Payload(ms[n]));
    }
  }

  lemma PayloadsOneMore(ms: seq<Message>)
    requires ms != []
    ensures Payloads(ms) == Payloads(ms[..|ms| - 1]) + [Payload(ms[|ms| - 1])]
  {
    var n := |ms| - 1;
    assert ms == ms[..n] + [ms[n]];
    PayloadsAppend(ms[..n], ms[n]);
  }

  lemma PayloadsAppend(ms: seq<Message>, m: Message)
    ensures Payloads(ms + [m]) == Payloads(ms) + [Payload(m)]
  {
    assert forall i :: 0 <= i < |ms| ==> (ms + [m])[i] == ms[i];
  }

  lemma {:induction false} WrittenPrefix(ms: seq<Message>, n: nat)
    requires n <= |ms|
    ensures Written(ms[..n]) <= Written(ms)
  {
    if n < |ms| {
      assert ms[..|ms| - 1][..n] == ms[..n];
      WrittenPrefix(ms[..|ms| - 1], n);
    } else {
      assert ms[..n] == ms;
    }
  }

  lemma {:induction false} WholeBetween(payloads: seq<string>, low: nat, high: nat, k: nat)
    requires low <= high <= |payloads| && |Frames(payloads[..low])| <= k <= |Frames(payloads[..high])|
    ensures low <= Whole(payloads, k) <= high
  {
    if high > 0 && k >= |Frame(payloads[0])| {
      assert payloads[..high][1..] == payloads[1..][..high - 1];
      if low > 0 {
        assert payloads[..low][1..] == payloads[1..][..low - 1];
      }
      WholeBetween(payloads[1..], if low > 0 then low - 1 else 0, high - 1, k - |Frame(payloads[0])|);
    }
  }

  /** A reader of what a write loop wrote gets the messages that were sent, and at most one more, whose
      write failed; if all were sent, it gets them all and then the end of input. */
  lemma WrittenReadsBack(ms: seq<Message>, sent: nat, bytes: string)
    requires sent <= |ms| && QueueWritten("", ms, sent, bytes)
    requires forall i :: 0 <= i < |ms| ==> Sendable(ms[i])
    ensures ms[..sent] <= ReadAll(bytes, Unmarshal).0 <= ms
    ensures |ReadAll(bytes, Unmarshal).0| <= sent + 1
    ensures sent == |ms| ==> ReadAll(bytes, Unmarshal) == (ms, EOF)
  {
    WrittenIsCut(ms, sent, bytes);
    WrittenIsFrames(ms);
    PayloadsEncode(ms);
    CutReadsBack(Payloads(ms), ms, sent, bytes, Unmarshal);
  }

  lemma CutReadsBack<M>(payloads: seq<string>, ms: seq<M>, sent: nat, bytes: string, decode: string -> Result<M, Error>)
    requires Encodes(payloads, ms, decode) && bytes <= Frames(payloads)
    requires sent <= Whole(payloads, |bytes|) <= sent + 1
    ensures sent <= |ms| && ms[..sent] <= ReadAll(bytes, decode).0 <= ms && |ReadAll(bytes, decode).0| <= sent + 1
    ensures bytes == Frames(payloads) ==> ReadAll(bytes, decode) == (ms, EOF)
  {
    assert Frames(payloads)[..|bytes|] == bytes;
    CutStreamReadsPrefix(payloads, ms, |bytes|, decode);
    if bytes == Frames(payloads) {
      StreamReadsBack(payloads, ms, decode);
    }
  }

  lemma WrittenIsCut(ms: seq<Message>, sent: nat, bytes: string)
    requires sent <= |ms| && QueueWritten("", ms, sent, bytes)
    ensures bytes <= Written(ms)
    ensures sent <= Whole(Payloads(ms), |bytes|) <= sent + 1
  {
    var high := if sent < |ms| then sent + 1 else sent;
    assert ms[..|ms|] == ms;
    WrittenPrefix(ms, high);
    WrittenSize(ms, sent);
    WrittenSize(ms, high);
    WholeBetween(Payloads(ms), sent, high, |bytes|);
  }

  lemma WrittenSize(ms: seq<Message>, n: nat)
    requires n <= |ms|
    ensures |Frames(Payloads(ms)[..n])| == |Written(ms[..n])|
  {
    assert Payloads(ms)[..n] == Payloads(ms[..n]);
    WrittenIsFrames(ms[..n]);
  }

  /** The cut that cannot be told from a clean end: only the header of a frame arrives. */
  lemma HeaderAloneReadsAsEnd(m: Message)
    requires Sendable(m)
    ensures ReadAll(Frame(Payload(m))[..HEADER_SIZE], Unmarshal) == ([], EOF) == ReadAll("", Unmarshal)
  {
    MarshalledSize(m);
    CutFrame(Payload(m), Frame(Payload(m))[..HEADER_SIZE], Unmarshal);
  }
}
