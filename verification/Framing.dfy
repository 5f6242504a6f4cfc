/**
  The stream layer: the frames of src/stream/send.c, and the two reading modes of
  src/stream/recv.c over a transport that hands out the bytes in pieces of any size.

  The cipher is a parameter: a pair of functions where decryption inverts encryption under the same
  key. The transport is a byte queue with an arbitrary function choosing the size of each piece.
 */
module Framing {
  import opened CStrings

  type octet = x: int | 0 <= x < 256

  const STREAM_MAGIC: nat := 0xFEED_DEAD
  const SE_PLAIN: nat := 0
  const SE_ENCRYPTED: nat := 1
  const SE_SERVER_KEY: nat := 3
  const SE_CLIENT_ACK: nat := 4
  const HDR_SIZE: nat := 12

  /** An unsigned 32-bit field in memory, least significant byte first; larger values are truncated. */
  function Le32(n: nat): (bs: seq<octet>)
    ensures |bs| == 4
  {
    [n % 256, n / 0x100 % 256, n / 0x1_0000 % 256, n / 0x100_0000 % 256]
  }

  function FromLe32(bs: seq<octet>): nat
    requires |bs| == 4
  {
    bs[0] as int + 0x100 * bs[1] as int + 0x1_0000 * bs[2] as int + 0x100_0000 * bs[3] as int
  }

  lemma HighByte(n: nat)
    ensures n % 256 + 0x100 * (n / 256) == n
  {
  }

  lemma Le32RoundTrip(n: nat)
    ensures FromLe32(Le32(n)) == n % 0x1_0000_0000
  {
    var a := n / 256;
    var b := a / 256;
    var c := b / 256;
    assert n / 0x1_0000 == b && n / 0x100_0000 == c;
    HighByte(n);
    HighByte(a);
    HighByte(b);
    HighByte(c);
    var low := n % 256 + 0x100 * (a % 256) + 0x1_0000 * (b % 256) + 0x100_0000 * (c % 256);
    LowWord(n, low, c / 256);
  }

  lemma LowWord(n: nat, low: nat, high: nat)
    requires n == low + 0x1_0000_0000 * high && low < 0x1_0000_0000
    ensures n % 0x1_0000_0000 == low
  {
  }

  /** struct stream_hdr: magic, length, kind. */
  function Header(len: nat, se: nat): (h: seq<octet>)
    ensures |h| == HDR_SIZE
  {
    Le32(STREAM_MAGIC) + (Le32(len) + Le32(se))
  }

  /* ---- encryption ---- */

  /** The first length that an int cannot hold. */
  const CIPHER_LIMIT: nat := 0x8000_0000

  /** rekey is what crypt_init makes of the previous key and the salt sent by the server. */
  datatype Cipher = Cipher(enc: (int, seq<octet>) -> seq<octet>,
                           dec: (int, seq<octet>) -> seq<octet>,
                           rekey: (int, int) -> int)
  {
    /** Both work in place; they take the length as an int, and nothing is assumed of longer messages. */
    ghost predicate Good()
    {
      && (forall k: int, m: seq<octet> :: |enc(k, m)| == |m| && (|m| < CIPHER_LIMIT ==> dec(k, enc(k, m)) == m))
      && (forall k: int, m: seq<octet> :: |dec(k, m)| == |m|)
    }
  }

  /** crypt_ready and the current key. */
  datatype Crypt = Crypt(ready: bool, key: int)

  function Decrypt(c: Cipher, st: Crypt, m: seq<octet>): seq<octet>
  {
    if st.ready then c.dec(st.key, m) else m
  }

  function Chars(bs: seq<octet>): string
  {
    seq(|bs|, i requires 0 <= i < |bs| => bs[i] as char)
  }

  function Rekeyed(c: Cipher, st: Crypt, salt: seq<octet>): Crypt
  {
    Crypt(true, c.rekey(st.key, ToInt32(Strtol(Chars(salt)))))
  }

  /* ---- what a reader makes of a byte stream ---- */

  /** Null is every NULL return; Overrun is the write through calloc(0) when the length is 2^32 - 1. */
  datatype Outcome = Null | Message(bytes: seq<octet>) | Overrun

  datatype Read = Read(outcome: Outcome, crypt: Crypt, acks: nat, rest: seq<octet>)

  /** How the next frame is cut out of the stream. */
  datatype Cut =
    | Starved                                                   // the stream ends inside the frame
    | Refused(after: seq<octet>)                                // bad magic or empty message
    | TooLong(after: seq<octet>)                                // hdr.len + 1 wraps to 0
    | Framed(se: nat, body: seq<octet>, rest: seq<octet>)

  function CutFrame(input: seq<octet>): (k: Cut)
    ensures k.Framed? ==> |k.rest| < |input|
  {
    if |input| < HDR_SIZE then Starved
    else
      var magic := FromLe32(input[..4]);
      var len := FromLe32(input[4..8]);
      var after := input[HDR_SIZE..];
      if magic != STREAM_MAGIC || len == 0 then Refused(after)
      else if len == 0xFFFF_FFFF then TooLong(after)
      else if |after| < len then Starved
      else Framed(FromLe32(input[8..12]), after[..len], after[len..])
  }

  /** stream_read in protected mode, as a function of the bytes alone. */
  function ReadFrame(c: Cipher, st: Crypt, input: seq<octet>): Read
    decreases |input|
  {
    match CutFrame(input)
    case Starved => Read(Null, st, 0, [])
    case Refused(after) => Read(Null, st, 0, after)
    case TooLong(after) => Read(Overrun, st, 0, after)
    case Framed(se, body, rest) =>
      if se == SE_ENCRYPTED then Read(Message(Decrypt(c, st, body)), st, 0, rest)
      else if se == SE_SERVER_KEY then
        var r := ReadFrame(c, Rekeyed(c, st, body), rest);
        r.(acks := r.acks + 1)
      else Read(Message(body), st, 0, rest)
  }

  /* ---- what a peer sends ---- */

  /** The bytes of stream_send_msg in protected mode. */
  function Frame(c: Cipher, st: Crypt, m: seq<octet>): seq<octet>
  {
    if st.ready then Header(|m|, SE_ENCRYPTED) + c.enc(st.key, m)
    else Header(|m|, SE_PLAIN) + m
  }

  datatype Event = Text(m: seq<octet>) | Key(salt: seq<octet>)

  /** The bytes of a peer that sends texts and, in between, new keys. */
  function Transcript(c: Cipher, st: Crypt, events: seq<Event>): seq<octet>
    decreases |events|
  {
    if events == [] then []
    else match events[0]
      case Text(m) => Frame(c, st, m) + Transcript(c, st, events[1..])
      case Key(salt) =>
        Header(|salt|, SE_SERVER_KEY) + salt + Transcript(c, Rekeyed(c, st, salt), events[1..])
  }

  function Texts(events: seq<Event>): seq<seq<octet>>
  {
    if events == [] then []
    else match events[0]
      case Text(m) => [m] + Texts(events[1..])
      case Key(_) => Texts(events[1..])
  }

  function FinalCrypt(c: Cipher, st: Crypt, events: seq<Event>): Crypt
    decreases |events|
  {
    if events == [] then st
    else match events[0]
      case Text(_) => FinalCrypt(c, st, events[1..])
      case Key(salt) => FinalCrypt(c, Rekeyed(c, st, salt), events[1..])
  }

  /** A length that the header holds and that leaves room for a terminator. */
  predicate Fits(m: seq<octet>) { 0 < |m| < 0xFFFF_FFFF }

  predicate Sendable(st: Crypt, m: seq<octet>) { Fits(m) && (st.ready ==> |m| < CIPHER_LIMIT) }

  /** Texts and keys of a length that can be sent; the first key turns encryption on. */
  predicate AllSendable(st: Crypt, events: seq<Event>)
    decreases |events|
  {
    events != [] ==>
      match events[0]
      case Text(m) => Sendable(st, m) && AllSendable(st, events[1..])
      case Key(salt) => Fits(salt) && AllSendable(Crypt(true, st.key), events[1..])
  }

  lemma {:induction false} SendableByReady(st: Crypt, st': Crypt, events: seq<Event>)
    requires AllSendable(st, events) && st.ready == st'.ready
    ensures AllSendable(st', events)
    decreases |events|
  {
    if events != [] {
      match events[0] {
        case Text(m) => SendableByReady(st, st', events[1..]);
        case Key(salt) => SendableByReady(Crypt(true, st.key), Crypt(true, st'.key), events[1..]);
      }
    }
  }

  function KeyCount(events: seq<Event>): nat
  {
    if events == [] then 0 else (if events[0].Key? then 1 else 0) + KeyCount(events[1..])
  }

  /** n consecutive calls of stream_read: their results, the key and the acknowledgements sent by then. */
  datatype Run = Run(outcomes: seq<Outcome>, crypt: Crypt, acks: nat, rest: seq<octet>)

  function ReadMany(c: Cipher, st: Crypt, input: seq<octet>, n: nat): Run
    decreases n
  {
    if n == 0 then Run([], st, 0, input)
    else
      var r := ReadFrame(c, st, input);
      var more := ReadMany(c, r.crypt, r.rest, n - 1);
      Run([r.outcome] + more.outcomes, more.crypt, r.acks + more.acks, more.rest)
  }

  lemma HeaderFields(len: nat, se: nat)
    requires se < 5
    ensures var h := Header(len, se);
      && FromLe32(h[..4]) == STREAM_MAGIC
      && FromLe32(h[4..8]) == len % 0x1_0000_0000
      && FromLe32(h[8..12]) == se
  {
    var h := Header(len, se);
    assert h[..4] == Le32(STREAM_MAGIC) && h[4..8] == Le32(len) && h[8..12] == Le32(se);
    Le32RoundTrip(STREAM_MAGIC);
    Le32RoundTrip(len);
    Le32RoundTrip(se);
  }

  /** The frame behind a header, in terms of the three fields of that header. */
  lemma CutBehind(h: seq<octet>, after: seq<octet>)
    requires |h| == HDR_SIZE && FromLe32(h[..4]) == STREAM_MAGIC
    ensures var len := FromLe32(h[4..8]);
      CutFrame(h + after) ==
      if len == 0 then Refused(after)
      else if len == 0xFFFF_FFFF then TooLong(after)
      else if |after| < len then Starved
      else Framed(FromLe32(h[8..12]), after[..len], after[len..])
  {
    var s := h + after;
    assert s[..4] == h[..4] && s[4..8] == h[4..8] && s[8..12] == h[8..12] && s[HDR_SIZE..] == after;
  }

  /** A body behind a header of its own length is cut out exactly, whatever follows. */
  lemma CutsOut(body: seq<octet>, se: nat, tail: seq<octet>)
    requires Fits(body) && se < 5
    ensures CutFrame(Header(|body|, se) + body + tail) == Framed(se, body, tail)
  {
    HeaderFields(|body|, se);
    BodyBehind(Header(|body|, se), body, tail);
  }

  lemma BodyBehind(h: seq<octet>, body: seq<octet>, tail: seq<octet>)
    requires Fits(body)
    requires |h| == HDR_SIZE && FromLe32(h[..4]) == STREAM_MAGIC && FromLe32(h[4..8]) == |body|
    ensures CutFrame(h + body + tail) == Framed(FromLe32(h[8..12]), body, tail)
  {
    CutBehind(h, body + tail);
    assert (h + body) + tail == h + (body + tail);
    assert (body + tail)[..|body|] == body && (body + tail)[|body|..] == tail;
  }

  /** A text frame reads back as the text, under the key both sides hold. */
  lemma TextFrame(c: Cipher, st: Crypt, m: seq<octet>, tail: seq<octet>)
    requires c.Good() && Sendable(st, m)
    ensures ReadFrame(c, st, Frame(c, st, m) + tail) == Read(Message(m), st, 0, tail)
  {
    if st.ready {
      CutsOut(c.enc(st.key, m), SE_ENCRYPTED, tail);
    } else {
      CutsOut(m, SE_PLAIN, tail);
    }
  }

  function Messages(ms: seq<seq<octet>>): seq<Outcome>
  {
    if ms == [] then [] else [Message(ms[0])] + Messages(ms[1..])
  }

  /** A key frame is consumed, and acknowledged, by the read that follows it. */
  lemma KeyFrame(c: Cipher, st: Crypt, salt: seq<octet>, tail: seq<octet>, n: nat)
    requires Fits(salt) && n > 0
    ensures var r := ReadMany(c, Rekeyed(c, st, salt), tail, n);
      ReadMany(c, st, Header(|salt|, SE_SERVER_KEY) + salt + tail, n) == r.(acks := r.acks + 1)
  {
    CutsOut(salt, SE_SERVER_KEY, tail);
  }

  lemma TextThenRest(c: Cipher, st: Crypt, m: seq<octet>, tail: seq<octet>, n: nat)
    requires c.Good() && Sendable(st, m) && n > 0
    ensures var r := ReadMany(c, st, tail, n - 1);
      ReadMany(c, st, Frame(c, st, m) + tail, n) == r.(outcomes := [Message(m)] + r.outcomes)
  {
    TextFrame(c, st, m, tail);
  }

  predicate EndsInText(events: seq<Event>) { events != [] ==> events[|events| - 1].Text? }

  /**
    Reading a whole transcript: the texts come out in order and unchanged across every change of
    key, nothing else does, both sides end under the same key, and each key was acknowledged once.
   */
  lemma {:induction false} TranscriptReadsBack(c: Cipher, st: Crypt, events: seq<Event>)
    requires c.Good() && AllSendable(st, events) && EndsInText(events)
    ensures ReadMany(c, st, Transcript(c, st, events), |Texts(events)|)
            == Run(Messages(Texts(events)), FinalCrypt(c, st, events), KeyCount(events), [])
    decreases |events|
  {
    if events != [] {
      var tail := events[1..];
      match events[0]
      case Text(m) =>
        TranscriptReadsBack(c, st, tail);
        FirstText(c, st, events, m);
        TextThenRest(c, st, m, Transcript(c, st, tail), |Texts(tail)| + 1);
      case Key(salt) =>
        var st' := Rekeyed(c, st, salt);
        SomeText(tail);
        SendableByReady(Crypt(true, st.key), st', tail);
        TranscriptReadsBack(c, st', tail);
        FirstKey(c, st, events, salt);
        KeyFrame(c, st, salt, Transcript(c, st', tail), |Texts(tail)|);
    }
  }

  lemma FirstText(c: Cipher, st: Crypt, events: seq<Event>, m: seq<octet>)
    requires events != [] && events[0] == Text(m)
    ensures Transcript(c, st, events) == Frame(c, st, m) + Transcript(c, st, events[1..])
    ensures FinalCrypt(c, st, events) == FinalCrypt(c, st, events[1..]) && KeyCount(events) == KeyCount(events[1..])
    ensures |Texts(events)| == |Texts(events[1..])| + 1
    ensures Messages(Texts(events)) == [Message(m)] + Messages(Texts(events[1..]))
  {
    assert Texts(events)[1..] == Texts(events[1..]);
  }

  lemma FirstKey(c: Cipher, st: Crypt, events: seq<Event>, salt: seq<octet>)
    requires events != [] && events[0] == Key(salt)
    ensures Transcript(c, st, events) ==
            Header(|salt|, SE_SERVER_KEY) + salt + Transcript(c, Rekeyed(c, st, salt), events[1..])
    ensures FinalCrypt(c, st, events) == FinalCrypt(c, Rekeyed(c, st, salt), events[1..])
    ensures KeyCount(events) == KeyCount(events[1..]) + 1 && Texts(events) == Texts(events[1..])
  {
  }

  lemma {:induction false} SomeText(events: seq<Event>)
    requires events != [] && EndsInText(events)
    ensures |Texts(events)| > 0
  {
    if events[0].Key? {
      SomeText(events[1..]);
    }
  }

  /** What the peer puts behind the header. */
  function Body(c: Cipher, st: Crypt, m: seq<octet>): seq<octet>
  {
    if st.ready then c.enc(st.key, m) else m
  }

  lemma BodyComesOut(c: Cipher, st: Crypt, m: seq<octet>)
    requires c.Good() && Fits(m)
    ensures ReadFrame(c, st, Frame(c, st, m)).outcome == Message(Decrypt(c, st, Body(c, st, m)))
  {
    var se := if st.ready then SE_ENCRYPTED else SE_PLAIN;
    CutsOut(Body(c, st, m), se, []);
    assert Header(|m|, se) + Body(c, st, m) + [] == Frame(c, st, m);
  }

  /** A length that does not fit is read as another one, or as one that is refused. */
  lemma LengthLost(n: nat)
    ensures n >= 0x1_0000_0000 ==> n % 0x1_0000_0000 < n
  {
  }

  lemma BodyIsLost(c: Cipher, st: Crypt, m: seq<octet>)
    requires c.Good() && !Fits(m)
    ensures ReadFrame(c, st, Frame(c, st, m)).outcome != Message(m)
  {
    var se := if st.ready then SE_ENCRYPTED else SE_PLAIN;
    HeaderFields(|m|, se);
    CutBehind(Header(|m|, se), Body(c, st, m));
    LengthLost(|m|);
  }

  /**
    Exactly which messages survive framing: the header holds the length modulo 2^32, the reader refuses
    0 and runs over its buffer at 2^32 - 1, and an encrypted message must be one that the cipher inverts,
    as it does below 2^31.
   */
  lemma SurvivesFraming(c: Cipher, st: Crypt, m: seq<octet>)
    requires c.Good()
    ensures ReadFrame(c, st, Frame(c, st, m)).outcome == Message(m) <==>
            Fits(m) && (st.ready ==> c.dec(st.key, c.enc(st.key, m)) == m)
    ensures Sendable(st, m) ==> ReadFrame(c, st, Frame(c, st, m)).outcome == Message(m)
  {
    if Fits(m) {
      BodyComesOut(c, st, m);
    } else {
      BodyIsLost(c, st, m);
    }
  }

  /** The acknowledgements sent for n keys. */
  function Acks(n: nat): seq<octet>
  {
    if n == 0 then [] else Header(0, SE_CLIENT_ACK) + Acks(n - 1)
  }

  /* ---- the bytes of the frames ---- */

  /** The magic number, and a number below 256, as they stand in memory. */
  lemma MagicBytes(n: nat)
    requires n < 256
    ensures Le32(STREAM_MAGIC) == [0xAD, 0xDE, 0xED, 0xFE] && Le32(n) == [n, 0, 0, 0]
  {
  }

  /** The bytes of the four frames: a plain text, an encrypted text, a new key and its acknowledgement. */
  lemma FrameBytes(c: Cipher, key: int, m: seq<octet>)
    ensures Frame(c, Crypt(false, key), m) == [0xAD, 0xDE, 0xED, 0xFE] + (Le32(|m|) + [0, 0, 0, 0]) + m
    ensures Frame(c, Crypt(true, key), m) == [0xAD, 0xDE, 0xED, 0xFE] + (Le32(|m|) + [1, 0, 0, 0]) + c.enc(key, m)
    ensures Header(|m|, SE_SERVER_KEY) == [0xAD, 0xDE, 0xED, 0xFE] + (Le32(|m|) + [3, 0, 0, 0])
    ensures Acks(1) == [0xAD, 0xDE, 0xED, 0xFE, 0, 0, 0, 0, 4, 0, 0, 0]
  {
    MagicBytes(0);
    MagicBytes(1);
    MagicBytes(3);
    MagicBytes(4);
    assert Acks(1) == Header(0, SE_CLIENT_ACK) + Acks(0);
  }

  lemma {:induction false} ShortNumber(n: nat)
    ensures |Dec(n)| <= n + 1
  {
    if n >= 10 {
      ShortNumber(n / 10);
    }
  }

  lemma SaltIs(c: Cipher, st: Crypt, salt: seq<octet>, n: nat)
    requires Chars(salt) == Dec(n) && n < 0x8000_0000
    ensures Rekeyed(c, st, salt) == Crypt(true, c.rekey(st.key, n)) && Fits(salt)
  {
    StrtolOfDec(n, "");
    assert Dec(n) + "" == Dec(n) && |Chars(salt)| == |salt|;
    FitsInt32(n);
    ShortNumber(n);
  }

  lemma KeyStep(c: Cipher, st: Crypt, h: seq<octet>, salt: seq<octet>, tail: seq<octet>)
    requires h == Header(|salt|, SE_SERVER_KEY) && Fits(salt)
    ensures var r := ReadFrame(c, Rekeyed(c, st, salt), tail);
      ReadFrame(c, st, h + salt + tail) == r.(acks := r.acks + 1)
  {
    CutsOut(salt, SE_SERVER_KEY, tail);
  }

  /**
    A key frame with a printed number: whatever follows is read under the key made of the old key and
    that number, and the key is acknowledged.
   */
  lemma KeyTaken(c: Cipher, st: Crypt, salt: seq<octet>, n: nat, tail: seq<octet>)
    requires Chars(salt) == Dec(n) && n < 0x8000_0000
    ensures var r := ReadFrame(c, Crypt(true, c.rekey(st.key, n)), tail);
      ReadFrame(c, st, [0xAD, 0xDE, 0xED, 0xFE] + (Le32(|salt|) + [3, 0, 0, 0]) + salt + tail) == r.(acks := r.acks + 1)
  {
    var h := [0xAD, 0xDE, 0xED, 0xFE] + (Le32(|salt|) + [3, 0, 0, 0]);
    FrameBytes(c, 0, salt);
    SaltIs(c, st, salt, n);
    KeyStep(c, st, h, salt, tail);
  }

  /** A stream that ends inside a header is read to its end, and nothing is returned. */
  lemma EndsInHeader(c: Cipher, st: Crypt, input: seq<octet>)
    requires |input| < 12
    ensures ReadFrame(c, st, input) == Read(Null, st, 0, [])
  {
  }

  /* ---- the unprotected mode ---- */

  /** A piece ends the message when its last byte is '>' or 0. */
  predicate EndsMessage(chunk: seq<octet>)
  {
    chunk != [] && (chunk[|chunk| - 1] == 62 || chunk[|chunk| - 1] == 0)
  }

  lemma EndsWith(chunk: seq<octet>, last: octet)
    ensures EndsMessage(chunk + [last]) <==> last == '>' as int || last == 0
    ensures !EndsMessage([])
  {
  }

  function Flatten(chunks: seq<seq<octet>>): seq<octet>
  {
    if chunks == [] then [] else Flatten(chunks[..|chunks| - 1]) + chunks[|chunks| - 1]
  }

  /** The pieces read up to the first one that ends the message. */
  predicate ReadUpTo(chunks: seq<seq<octet>>)
  {
    && chunks != [] && EndsMessage(chunks[|chunks| - 1])
    && forall i :: 0 <= i < |chunks| - 1 ==> chunks[i] != [] && !EndsMessage(chunks[i])
  }

  /** The unprotected mode on a transport that delivers these pieces: None when they run out first. */
  function Unprotected(chunks: seq<seq<octet>>): Option<seq<octet>>
  {
    if chunks == [] then None
    else if EndsMessage(chunks[0]) then Some(chunks[0])
    else match Unprotected(chunks[1..])
      case None => None
      case Some(more) => Some(chunks[0] + more)
  }

  lemma {:induction false} FlattenFront(chunks: seq<seq<octet>>)
    requires chunks != []
    ensures Flatten(chunks) == chunks[0] + Flatten(chunks[1..])
  {
    if |chunks| > 1 {
      FlattenFront(chunks[..|chunks| - 1]);
      assert chunks[..|chunks| - 1][1..] == chunks[1..][..|chunks| - 2];
    }
  }

  lemma {:induction false} FlattenNonempty(chunks: seq<seq<octet>>)
    requires chunks != [] && forall i :: 0 <= i < |chunks| ==> chunks[i] != []
    ensures Flatten(chunks) != []
  {
  }

  /**
    The unprotected mode depends on the fragmentation: a message cut into non-empty pieces is read
    whole exactly when its last piece ends it and no earlier one does.
   */
  lemma {:induction false} UnprotectedWhole(chunks: seq<seq<octet>>)
    requires chunks != [] && forall i :: 0 <= i < |chunks| ==> chunks[i] != []
    ensures Unprotected(chunks) == Some(Flatten(chunks)) <==> ReadUpTo(chunks)
  {
    FlattenFront(chunks);
    if |chunks| == 1 {
      assert Flatten(chunks) == chunks[0] + Flatten([]) == chunks[0];
    } else {
      var tail := chunks[1..];
      assert forall i :: 0 <= i < |tail| ==> tail[i] == chunks[i + 1];
      FlattenNonempty(tail);
      UnprotectedWhole(tail);
      assert EndsMessage(chunks[0]) ==> |chunks[0]| < |Flatten(chunks)|;
      if !EndsMessage(chunks[0]) {
        TailReadUpTo(chunks);
        if Unprotected(tail).Some? {
          assert chunks[0] + Unprotected(tail).value == chunks[0] + Flatten(tail) ==>
              Unprotected(tail).value == (chunks[0] + Flatten(tail))[|chunks[0]|..] == Flatten(tail);
        }
      }
    }
  }

  lemma TailReadUpTo(chunks: seq<seq<octet>>)
    requires |chunks| > 1 && !EndsMessage(chunks[0]) && chunks[0] != []
    ensures ReadUpTo(chunks) <==> ReadUpTo(chunks[1..])
  {
    var tail := chunks[1..];
    if ReadUpTo(tail) {
      forall i | 0 <= i < |chunks| - 1 ensures chunks[i] != [] && !EndsMessage(chunks[i]) {
        assert i > 0 ==> chunks[i] == tail[i - 1];
      }
    }
    if ReadUpTo(chunks) {
      forall i | 0 <= i < |tail| - 1 ensures tail[i] != [] && !EndsMessage(tail[i]) {
        assert tail[i] == chunks[i + 1];
      }
    }
  }

  predicate NoneEnds(chunks: seq<seq<octet>>)
  {
    forall i :: 0 <= i < |chunks| ==> chunks[i] != [] && !EndsMessage(chunks[i])
  }

  lemma OneMore(chunks: seq<seq<octet>>, chunk: seq<octet>)
    requires NoneEnds(chunks) && chunk != []
    ensures Flatten(chunks + [chunk]) == Flatten(chunks) + chunk
    ensures if EndsMessage(chunk) then ReadUpTo(chunks + [chunk]) else NoneEnds(chunks + [chunk])
  {
    assert (chunks + [chunk])[..|chunks|] == chunks;
  }

  /** Two cuts of one text that the unprotected mode reads differently. */
  lemma FragmentationMatters()
    ensures exists a: seq<seq<octet>>, b: seq<seq<octet>> ::
      Flatten(a) == Flatten(b) && Unprotected(a).Some? && Unprotected(b).Some? && Unprotected(a) != Unprotected(b)
  {
    var x: seq<octet>, y: seq<octet> := [60, 97, 62], [60, 98, 62];
    var a, b := [x, y], [x + y];
    assert a[..1] == [x] && [x][..0] == [];
    assert Flatten([x]) == x;
    assert Flatten(a) == x + y;
    assert b[..0] == [];
    assert Flatten(b) == x + y;
    assert |(x + y)| != |x|;
  }

  /* ---- the socket ---- */

  /** One end of a connection: bytes still to be received, bytes sent, and the static state of the stream. */
  class Connection {
    const cipher: Cipher
    /** The size of the k-th piece handed out by the transport, as an arbitrary function. */
    const piece: nat -> nat
    var calls: nat
    var incoming: seq<octet>
    var outgoing: seq<octet>
    var crypt: Crypt

    constructor (cipher: Cipher, piece: nat -> nat, incoming: seq<octet>, crypt: Crypt)
      ensures this.cipher == cipher && this.incoming == incoming && this.crypt == crypt && outgoing == []
    {
      this.cipher, this.piece, this.incoming, this.crypt := cipher, piece, incoming, crypt;
      outgoing, calls := [], 0;
    }

    /** recv: nothing at the end of the stream, otherwise between one byte and what was asked for. */
    method Recv(max: nat) returns (chunk: seq<octet>)
      modifies this`calls, this`incoming
      ensures chunk + incoming == old(incoming) && |chunk| <= max
      ensures chunk == [] <==> old(incoming) == [] || max == 0
    {
      var n := if max < |incoming| then max else |incoming|;
      var take := if n == 0 then 0 else 1 + piece(calls) % n;
      chunk, incoming, calls := incoming[..take], incoming[take..], calls + 1;
    }

    /** The two receiving loops of the protected mode: n bytes, or failure when the stream ends first. */
    method ReadExactly(n: nat) returns (ok: bool, bytes: seq<octet>)
      requires n > 0
      modifies this`calls, this`incoming
      ensures ok <==> n <= |old(incoming)|
      ensures ok ==> bytes == old(incoming)[..n] && incoming == old(incoming)[n..]
      ensures !ok ==> incoming == []
    {
      bytes, ok := [], true;
      while |bytes| < n
        invariant |bytes| <= n && bytes + incoming == old(incoming)
        decreases n - |bytes|
      {
        var chunk := Recv(n - |bytes|);
        if chunk == [] {
          ok := false;
          return;
        }
        bytes := bytes + chunk;
      }
    }

    /** The part of stream_read that fills the header and the message. */
    method ReadCut() returns (k: Cut)
      modifies this`calls, this`incoming
      ensures k == CutFrame(old(incoming))
      ensures incoming == match k
                          case Starved => []
                          case Refused(after) => after
                          case TooLong(after) => after
                          case Framed(_, _, rest) => rest
    {
      var ok, hdr := ReadExactly(HDR_SIZE);
      if !ok {
        return Starved;
      }
      ghost var input := old(incoming);
      assert hdr[..4] == input[..4] && hdr[4..8] == input[4..8] && hdr[8..12] == input[8..12];
      var len := FromLe32(hdr[4..8]);
      if FromLe32(hdr[..4]) != STREAM_MAGIC || len == 0 {
        return Refused(incoming);
      }
      if len == 0xFFFF_FFFF {
        return TooLong(incoming);
      }
      var body;
      ok, body := ReadExactly(len);
      if !ok {
        return Starved;
      }
      k := Framed(FromLe32(hdr[8..12]), body, incoming);
    }

    /**
      stream_read in protected mode. What it returns, the key it leaves, the acknowledgements it
      sends and what it leaves unread depend on the bytes alone, never on how they were cut.
     */
    method StreamRead() returns (r: Outcome)
      modifies this`calls, this`incoming, this`crypt, this`outgoing
      ensures var spec := ReadFrame(cipher, old(crypt), old(incoming));
        && r == spec.outcome && crypt == spec.crypt && incoming == spec.rest
        && outgoing == old(outgoing) + Acks(spec.acks)
      decreases |incoming|
    {
      var k := ReadCut();
      match k {
        case Starved => r := Null;
        case Refused(_) => r := Null;
        case TooLong(_) => r := Overrun;
        case Framed(se, body, _) =>
          if se == SE_ENCRYPTED {
            r := Message(Decrypt(cipher, crypt, body));
          } else if se == SE_SERVER_KEY {
            crypt := Rekeyed(cipher, crypt, body);
            outgoing := outgoing + Header(0, SE_CLIENT_ACK);
            r := StreamRead();
          } else {
            r := Message(body);
          }
      }
    }

    /** stream_send_msg in protected mode, once the query is compressed. */
    method StreamSend(msg: seq<octet>)
      modifies this`outgoing
      ensures outgoing == old(outgoing) + Frame(cipher, crypt, msg)
    {
      var se, buffer := SE_PLAIN, msg;
      if crypt.ready {
        se, buffer := SE_ENCRYPTED, cipher.enc(crypt.key, msg);
      }
      outgoing := outgoing + Header(|msg|, se);
      outgoing := outgoing + buffer;
    }

    /** n reads in a row. */
    method ReadTimes(n: nat) returns (rs: seq<Outcome>)
      modifies this`calls, this`incoming, this`crypt, this`outgoing
      ensures var spec := ReadMany(cipher, old(crypt), old(incoming), n);
        rs == spec.outcomes && crypt == spec.crypt && incoming == spec.rest
    {
      if n == 0 {
        return [];
      }
      var first := StreamRead();
      var more := ReadTimes(n - 1);
      rs := [first] + more;
    }

    /**
      stream_read in unprotected mode: the buffer doubles after every piece that does not end the
      message. Each piece fits in the space left, the result is a prefix of the stream cut at the
      first piece that ends it, and at least 128 zero bytes follow it.
     */
    method ReadUnprotected() returns (ok: bool, msg: array<octet>, size: nat, ghost chunks: seq<seq<octet>>)
      modifies this`calls, this`incoming
      ensures fresh(msg) && Flatten(chunks) + incoming == old(incoming)
      ensures !ok ==> incoming == [] && NoneEnds(chunks)
      ensures ok ==> ReadUpTo(chunks) && Filled(msg, size, chunks) && size + 128 <= msg.Length
    {
      var buffSize := 256;
      msg := new octet[buffSize](i => 0);
      ok, size, chunks := false, 0, [];
      while !ok
        invariant fresh(msg) && msg.Length == buffSize && buffSize % 2 == 0
        invariant size + 128 <= if ok then buffSize else buffSize / 2
        invariant if ok then ReadUpTo(chunks) else NoneEnds(chunks)
        invariant Filled(msg, size, chunks)
        invariant Flatten(chunks) + incoming == old(incoming)
        decreases !ok, |incoming|
      {
        var chunk := Recv(buffSize / 2);
        if chunk == [] {
          return;
        }
        chunks := Store(msg, size, chunk, chunks);
        size := size + |chunk|;
        ok := msg[size - 1] == 62 || msg[size - 1] == 0;
        if !ok {
          buffSize := buffSize * 2;
          msg := Grow(msg, size, buffSize, chunks);
        }
      }
    }
  }

  /** The buffer holds the pieces read so far, then zeros. */
  ghost predicate Filled(buffer: array<octet>, size: nat, chunks: seq<seq<octet>>)
    reads buffer
  {
    && size <= buffer.Length && buffer[..size] == Flatten(chunks)
    && forall i :: size <= i < buffer.Length ==> buffer[i] == 0
  }

  /** What recv writes at the current position. */
  method Store(buffer: array<octet>, size: nat, chunk: seq<octet>, ghost chunks: seq<seq<octet>>)
    returns (ghost more: seq<seq<octet>>)
    requires Filled(buffer, size, chunks) && NoneEnds(chunks)
    requires chunk != [] && size + |chunk| <= buffer.Length
    modifies buffer
    ensures more == chunks + [chunk] && Flatten(more) == Flatten(chunks) + chunk
    ensures Filled(buffer, size + |chunk|, more)
    ensures EndsMessage(chunk) <==> buffer[size + |chunk| - 1] == 62 || buffer[size + |chunk| - 1] == 0
    ensures if EndsMessage(chunk) then ReadUpTo(more) else NoneEnds(more)
  {
    more := chunks + [chunk];
    OneMore(chunks, chunk);
    forall i | 0 <= i < |chunk| {
      buffer[size + i] := chunk[i];
    }
    assert buffer[..size + |chunk|] == old(buffer[..size]) + chunk;
  }

  /** realloc to the new size, then memset of everything after the bytes read. */
  method Grow(buffer: array<octet>, size: nat, newSize: nat, ghost chunks: seq<seq<octet>>)
    returns (grown: array<octet>)
    requires Filled(buffer, size, chunks) && buffer.Length <= newSize
    ensures fresh(grown) && grown.Length == newSize && Filled(grown, size, chunks)
  {
    grown := new octet[newSize](i => 0);
    forall i | 0 <= i < size {
      grown[i] := buffer[i];
    }
    assert grown[..size] == buffer[..size];
  }
}
