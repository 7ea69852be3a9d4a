/** The length-prefixed frames peers exchange (cluster/proto.go). */
module Frames {
  import opened Safecast

  newtype Byte = b: int | 0 <= b < 0x100

  const MAX_FRAME_BYTES: nat := 0x400_0000

  datatype Error = TooLong | UnexpectedEnd
  datatype Read = Frame(payload: seq<Byte>, rest: seq<Byte>) | Failed(error: Error, unread: seq<Byte>)

  /** binary.BigEndian.PutUint32. */
  function BigEndian(n: nat): (b: seq<Byte>)
    requires n <= MAX_UINT32
    ensures |b| == 4
  {
    [(n / 0x100_0000) as Byte, (n / 0x1_0000 % 0x100) as Byte, (n / 0x100 % 0x100) as Byte, (n % 0x100) as Byte]
  }

  /** binary.BigEndian.Uint32. */
  function FromBigEndian(b: seq<Byte>): (n: nat)
    requires |b| == 4
    ensures n <= MAX_UINT32
  {
    ((b[0] as int * 0x100 + b[1] as int) * 0x100 + b[2] as int) * 0x100 + b[3] as int
  }

  function Encode(payload: seq<Byte>): seq<Byte>
    requires |payload| <= MAX_FRAME_BYTES
  {
    BigEndian(IntToUint32Clamp(|payload|)) + payload
  }

  /** One frame off the front of a stream. A short stream is used up; an announced length over the limit leaves what
      follows the header unread. */
  function Decode(s: seq<Byte>): Read {
    if |s| < 4 then Failed(UnexpectedEnd, [])
    else
      var n := FromBigEndian(s[..4]);
      if n > MAX_FRAME_BYTES then Failed(TooLong, s[4..])
      else if |s| < 4 + n then Failed(UnexpectedEnd, [])
      else Frame(s[4..4 + n], s[4 + n..])
  }

  /** Four bytes that spell `n` with the most significant one first. */
  predicate IsHeader(hdr: seq<Byte>, n: nat) {
    |hdr| == 4 && n == hdr[0] as int * 16777216 + hdr[1] as int * 65536 + hdr[2] as int * 256 + hdr[3] as int
  }

  lemma HeaderIff(hdr: seq<Byte>, n: nat)
    requires |hdr| == 4
    ensures FromBigEndian(hdr) == n <==> IsHeader(hdr, n)
  {
  }

  lemma HeaderBytes(n: nat)
    requires n <= MAX_UINT32
    ensures IsHeader(BigEndian(n), n)
  {
    BigEndianInverse(n);
    HeaderIff(BigEndian(n), n);
  }

  /** A frame can be read exactly if the bytes start with a header and as many bytes as it spells, at most 64 MiB. */
  lemma FrameReadIff(s: seq<Byte>)
    ensures Decode(s).Frame? <==> exists hdr, payload, rest ::
              IsHeader(hdr, |payload|) && |payload| <= 64 * 1024 * 1024 && s == hdr + payload + rest
    ensures Decode(s).Frame? ==>
              IsHeader(s[..4], |Decode(s).payload|) && s == s[..4] + Decode(s).payload + Decode(s).rest
  {
    if Decode(s).Frame? {
      var hdr, payload, rest := s[..4], Decode(s).payload, Decode(s).rest;
      HeaderIff(hdr, |payload|);
      assert s == hdr + payload + rest;
    }
    if hdr, payload, rest :| IsHeader(hdr, |payload|) && |payload| <= 64 * 1024 * 1024 && s == hdr + payload + rest {
      assert s[..4] == hdr;
      HeaderIff(hdr, |payload|);
    }
  }

  /** The reader's end of a connection: bytes that have arrived and not been read. */
  class Stream {
    var pending: seq<Byte>

    constructor ()
      ensures pending == []
    {
      pending := [];
    }

    method WriteFrame(payload: seq<Byte>) returns (ok: bool)
      modifies this
      ensures ok <==> |payload| <= MAX_FRAME_BYTES
      ensures ok ==> pending == old(pending) + Encode(payload)
      ensures ok ==> exists hdr :: IsHeader(hdr, |payload|) && pending == old(pending) + hdr + payload
      ensures !ok ==> pending == old(pending)
    {
      if |payload| > MAX_FRAME_BYTES {
        return false;
      }
      var n := IntToUint32Clamp(|payload|);
      var hdr := new Byte[4] (_ => 0);
      hdr[0], hdr[1], hdr[2], hdr[3] :=
        (n / 0x100_0000) as Byte, (n / 0x1_0000 % 0x100) as Byte, (n / 0x100 % 0x100) as Byte, (n % 0x100) as Byte;
      assert hdr[..] == BigEndian(n);
      pending := pending + hdr[..];
      pending := pending + payload;
      assert pending == old(pending) + Encode(payload);
      HeaderBytes(|payload|);
      assert old(pending) + BigEndian(|payload|) + payload == pending;
      return true;
    }

    method ReadFrame() returns (r: Read)
      modifies this
      ensures r == Decode(old(pending))
      ensures pending == if r.Frame? then r.rest else r.unread
      ensures r.Frame? <==> exists hdr, payload, rest ::
                IsHeader(hdr, |payload|) && |payload| <= 64 * 1024 * 1024 && old(pending) == hdr + payload + rest
      ensures r.Frame? ==>
                IsHeader(old(pending)[..4], |r.payload|) && old(pending) == old(pending)[..4] + r.payload + r.rest
    {
      FrameReadIff(pending);
      if |pending| < 4 {
        pending := [];
        return Failed(UnexpectedEnd, []);
      }
      var hdr := pending[..4];
      pending := pending[4..];
      var n := ((hdr[0] as int * 0x100 + hdr[1] as int) * 0x100 + hdr[2] as int) * 0x100 + hdr[3] as int;
      if n > MAX_FRAME_BYTES {
        return Failed(TooLong, pending);
      }
      if |pending| < n {
        pending := [];
        return Failed(UnexpectedEnd, []);
      }
      var buf := pending[..n];
      assert old(pending)[4..4 + n] == buf && old(pending)[4 + n..] == pending[n..];
      pending := pending[n..];
      return Frame(buf, pending);
    }
  }

  // ---- Writing and reading are inverse ----

  lemma BigEndianInverse(n: nat)
    requires n <= MAX_UINT32
    ensures FromBigEndian(BigEndian(n)) == n
  {
    assert n / 0x100 == n / 0x1_0000 * 0x100 + n / 0x100 % 0x100;
    assert n / 0x1_0000 == n / 0x100_0000 * 0x100 + n / 0x1_0000 % 0x100;
  }

  lemma FromBigEndianInverse(b: seq<Byte>)
    requires |b| == 4
    ensures BigEndian(FromBigEndian(b)) == b
  {
    var b0, b1, b2, b3 := b[0] as int, b[1] as int, b[2] as int, b[3] as int;
    var n := FromBigEndian(b);
    assert n / 0x100 == (b0 * 0x100 + b1) * 0x100 + b2 && n % 0x100 == b3;
    assert n / 0x1_0000 == b0 * 0x100 + b1;
    assert n / 0x100_0000 == b0;
  }

  /** Whatever follows a written frame, reading gives the payload and leaves the rest. */
  lemma RoundTrip(payload: seq<Byte>, rest: seq<Byte>)
    requires |payload| <= MAX_FRAME_BYTES
    ensures Decode(Encode(payload) + rest) == Frame(payload, rest)
  {
    BigEndianInverse(|payload|);
    var s := Encode(payload) + rest;
    assert s[..4] == BigEndian(|payload|);
    assert s[4..4 + |payload|] == payload && s[4 + |payload|..] == rest;
  }

  /** A frame that is read was written: the bytes are exactly its encoding followed by the rest. */
  lemma ReadOnlyWhatWasWritten(s: seq<Byte>)
    requires Decode(s).Frame?
    ensures |Decode(s).payload| <= MAX_FRAME_BYTES
    ensures s == Encode(Decode(s).payload) + Decode(s).rest
  {
    FromBigEndianInverse(s[..4]);
    var n := |Decode(s).payload|;
    assert s == s[..4] + s[4..4 + n] + s[4 + n..];
  }

  // ---- Streams of frames ----

  predicate AllFit(ps: seq<seq<Byte>>) {
    forall p <- ps :: |p| <= MAX_FRAME_BYTES
  }

  function EncodeAll(ps: seq<seq<Byte>>): seq<Byte>
    requires AllFit(ps)
  {
    if ps == [] then [] else Encode(ps[0]) + EncodeAll(ps[1..])
  }

  datatype ReadAll = Frames(payloads: seq<seq<Byte>>, rest: seq<Byte>) | Broken(error: Error)

  function DecodeAll(s: seq<Byte>, count: nat): ReadAll
    decreases count
  {
    if count == 0 then Frames([], s)
    else
      match Decode(s)
      case Failed(e, _) => Broken(e)
      case Frame(p, rest) =>
        match DecodeAll(rest, count - 1)
        case Broken(e) => Broken(e)
        case Frames(ps, tail) => Frames([p] + ps, tail)
  }

  lemma {:induction false} FirstFrame(s: seq<Byte>, ps: seq<seq<Byte>>, rest: seq<Byte>) returns (tail: seq<Byte>)
    requires ps != [] && AllFit(ps) && s == EncodeAll(ps) + rest
    ensures tail == EncodeAll(ps[1..]) + rest && Decode(s) == Frame(ps[0], tail)
  {
    tail := EncodeAll(ps[1..]) + rest;
    assert s == Encode(ps[0]) + tail;
    RoundTrip(ps[0], tail);
  }

  /** What was written comes back as the same list, and trailing bytes stay unread. */
  lemma {:induction false} WrittenIsRead(s: seq<Byte>, ps: seq<seq<Byte>>, rest: seq<Byte>)
    requires AllFit(ps) && s == EncodeAll(ps) + rest
    ensures DecodeAll(s, |ps|) == Frames(ps, rest)
    decreases |ps|
  {
    if ps == [] {
      assert s == rest;
    } else {
      var tail := FirstFrame(s, ps, rest);
      WrittenIsRead(tail, ps[1..], rest);
      DecodeCons(s, ps[0], tail, ps[1..], rest);
      assert ps == [ps[0]] + ps[1..];
    }
  }

  lemma {:induction false} DecodeCons(s: seq<Byte>, p: seq<Byte>, tail: seq<Byte>, ps: seq<seq<Byte>>, rest: seq<Byte>)
    requires Decode(s) == Frame(p, tail) && DecodeAll(tail, |ps|) == Frames(ps, rest)
    ensures DecodeAll(s, |ps| + 1) == Frames([p] + ps, rest)
  {
  }

  lemma {:induction false} EncodeCons(p: seq<Byte>, ps: seq<seq<Byte>>, rest: seq<Byte>)
    requires |p| <= MAX_FRAME_BYTES && AllFit(ps)
    ensures AllFit([p] + ps) && EncodeAll([p] + ps) + rest == Encode(p) + (EncodeAll(ps) + rest)
  {
    assert ([p] + ps)[1..] == ps;
  }

  /** Only written frames can be read. */
  lemma {:induction false} ReadIsWritten(s: seq<Byte>, count: nat)
    requires DecodeAll(s, count).Frames?
    ensures var r := DecodeAll(s, count);
            |r.payloads| == count && AllFit(r.payloads) && s == EncodeAll(r.payloads) + r.rest
    decreases count
  {
    if count > 0 {
      var d := Decode(s);
      ReadOnlyWhatWasWritten(s);
      ReadIsWritten(d.rest, count - 1);
      var ps := DecodeAll(d.rest, count - 1).payloads;
      EncodeCons(d.payload, ps, DecodeAll(d.rest, count - 1).rest);
    }
  }

  /** Reading |ps| frames gives `ps` and `rest` exactly when the stream is the encoding of `ps` followed by `rest`. */
  lemma StreamRoundTrip(s: seq<Byte>, ps: seq<seq<Byte>>, rest: seq<Byte>)
    ensures DecodeAll(s, |ps|) == Frames(ps, rest) <==> AllFit(ps) && s == EncodeAll(ps) + rest
  {
    if AllFit(ps) && s == EncodeAll(ps) + rest {
      WrittenIsRead(s, ps, rest);
    }
    if DecodeAll(s, |ps|).Frames? {
      ReadIsWritten(s, |ps|);
    }
  }
}
