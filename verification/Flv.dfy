/** The FLV container of internal/flv: Annex E.2 to E.4 of the Adobe Flash Video File Format
    Specification v10.1. */
module Flv {
  import opened Packets
  import opened Bytes

  const HEADER: seq<byte> := [0x46, 0x4C, 0x56, 0x01, 0x05, 0, 0, 0, 9, 0, 0, 0, 0]
  const MAX_PAYLOAD := 0x100_0000
  const MAX_TIMESTAMP := 0x1_0000_0000

  /** io errors: EOF when nothing could be read, UnexpectedEOF when a read stopped half way; payload
      and trailer errors come wrapped with a message. */
  datatype Error = EOF | UnexpectedEOF | Wrapped(what: string, cause: Error) | BadMagic

  datatype Result<+T> = Ok(value: T, rest: seq<byte>) | Err(error: Error)

  // ---- what the writer emits -------------------------------------------------------------

  /** A tag: type, 24-bit size, timestamp with its high byte last, zero stream id, payload and
      PreviousTagSize; sizes are cut to their fields. */
  function TagHeader(p: Content): (r: seq<byte>)
    ensures |r| == 11
  {
    [p.kind] + Be(|p.data|, 3) + Be(p.timestamp, 3) + Be(p.timestamp / MAX_PAYLOAD, 1) + [0, 0, 0]
  }

  function EncodeTag(p: Content): (r: seq<byte>)
    ensures |r| == 15 + |p.data|
  {
    TagHeader(p) + p.data + Be(11 + |p.data|, 4)
  }

  function EncodeTags(ps: seq<Content>): seq<byte> {
    if ps == [] then [] else EncodeTag(ps[0]) + EncodeTags(ps[1..])
  }

  function EncodeFile(ps: seq<Content>): seq<byte> { HEADER + EncodeTags(ps) }

  // ---- what the reader makes of bytes ----------------------------------------------------

  function ReadFull(input: seq<byte>, n: nat): (r: Result<seq<byte>>)
  {
    if n <= |input| then Ok(input[..n], input[n..])
    else if input == [] then Err(EOF)
    else Err(UnexpectedEOF)
  }

  function ReadHeader(input: seq<byte>): (r: Result<()>) {
    match ReadFull(input, 13)
    case Err(e) => Err(Wrapped("read header", e))
    case Ok(h, rest) => if h[..3] == HEADER[..3] then Ok((), rest) else Err(BadMagic)
  }

  /** The packet a tag header and its payload stand for: the keyframe flag is read off the payload. */
  function Decoded(kind: byte, timestamp: nat, data: seq<byte>): Content {
    Content(kind, timestamp, kind == PACKET_VIDEO && data != [] && data[0] / 16 == 1, data)
  }

  function TagTimestamp(h: seq<byte>): nat
    requires |h| == 11
  {
    FromBe(h[4..7]) + h[7] as nat * MAX_PAYLOAD
  }

  function NextTag(input: seq<byte>): (r: Result<Content>)
    ensures r.Ok? ==> |r.rest| < |input|
  {
    match ReadFull(input, 11)
    case Err(e) => Err(e)
    case Ok(h, body) =>
      match ReadFull(body, FromBe(h[1..4]))
      case Err(e) => Err(Wrapped("read tag data", e))
      case Ok(data, trailer) =>
        match ReadFull(trailer, 4)
        case Err(e) => Err(Wrapped("read prevTagSize", e))
        case Ok(_, rest) => Ok(Decoded(h[0], TagTimestamp(h), data), rest)
  }

  /** Reading until the first error, as the relay does. */
  function ReadTags(input: seq<byte>): (r: (seq<Content>, Error))
    decreases |input|
  {
    match NextTag(input)
    case Err(e) => ([], e)
    case Ok(p, rest) => var (ps, e) := ReadTags(rest); ([p] + ps, e)
  }

  // ---- round trip ------------------------------------------------------------------------

  predicate Fits(p: Content) { |p.data| < MAX_PAYLOAD && p.timestamp < MAX_TIMESTAMP }

  function Normal(p: Content): Content { Decoded(p.kind, p.timestamp, p.data) }

  lemma TimestampField(t: nat)
    requires t < MAX_TIMESTAMP
    ensures FromBe(Be(t, 3)) + (t / MAX_PAYLOAD) % 256 * MAX_PAYLOAD == t
  {
    Widths();
    var high := BeKeepsRemainder(t, 3);
    assert high == t / MAX_PAYLOAD < 256;
  }

  lemma HeaderFields(p: Content)
    requires p.timestamp < MAX_TIMESTAMP
    ensures var h := TagHeader(p);
            h[0] == p.kind && h[1..4] == Be(|p.data|, 3) && TagTimestamp(h) == p.timestamp
  {
    var h := TagHeader(p);
    TimestampField(p.timestamp);
    assert h[1..4] == Be(|p.data|, 3);
    assert h[4..7] == Be(p.timestamp, 3);
    assert h[7] == Be(p.timestamp / MAX_PAYLOAD, 1)[0] == (p.timestamp / MAX_PAYLOAD) % 256;
  }

  lemma SizeField(n: nat)
    ensures FromBe(Be(n, 3)) < MAX_PAYLOAD && (n < MAX_PAYLOAD ==> FromBe(Be(n, 3)) == n)
  {
    Widths();
    if n < MAX_PAYLOAD { BeRoundTrip(n, 3); }
  }

  lemma ReadFullOf(a: seq<byte>, b: seq<byte>)
    ensures ReadFull(a + b, |a|) == Ok(a, b)
  {
  }

  lemma NextOfEncoded(p: Content, rest: seq<byte>)
    requires Fits(p)
    ensures NextTag(EncodeTag(p) + rest) == Ok(Normal(p), rest)
  {
    var h, prev := TagHeader(p), Be(11 + |p.data|, 4);
    HeaderFields(p);
    SizeField(|p.data|);
    assert EncodeTag(p) + rest == h + (p.data + (prev + rest));
    ReadFullOf(h, p.data + (prev + rest));
    ReadFullOf(p.data, prev + rest);
    ReadFullOf(prev, rest);
  }

  /** Writing a packet and reading it back gives the packet, and leaves exactly what followed it, if
      and only if its payload fits the 24-bit size field. */
  lemma TagRoundTrip(p: Content, rest: seq<byte>)
    requires p.timestamp < MAX_TIMESTAMP
    ensures NextTag(EncodeTag(p) + rest) == Ok(Normal(p), rest) <==> |p.data| < MAX_PAYLOAD
  {
    if |p.data| < MAX_PAYLOAD {
      NextOfEncoded(p, rest);
    } else {
      var h, input := TagHeader(p), EncodeTag(p) + rest;
      HeaderFields(p);
      SizeField(|p.data|);
      assert input[..11] == h;
      assert FromBe(h[1..4]) < |p.data|;
    }
  }

  function Normals(ps: seq<Content>): (r: seq<Content>)
    ensures |r| == |ps|
  {
    seq(|ps|, i requires 0 <= i < |ps| => Normal(ps[i]))
  }

  lemma ReadTagsCons(p: Content, tail: seq<byte>)
    requires Fits(p)
    ensures ReadTags(EncodeTag(p) + tail) == ([Normal(p)] + ReadTags(tail).0, ReadTags(tail).1)
  {
    NextOfEncoded(p, tail);
  }

  lemma {:induction false} ReadTagsOf(ps: seq<Content>)
    requires forall p <- ps :: Fits(p)
    ensures ReadTags(EncodeTags(ps)) == (Normals(ps), EOF)
  {
    if ps != [] {
      ReadTagsCons(ps[0], EncodeTags(ps[1..]));
      ReadTagsOf(ps[1..]);
      assert Normals(ps) == [Normal(ps[0])] + Normals(ps[1..]);
    }
  }

  lemma OversizeReads(p: Content, tail: seq<byte>)
    requires p.timestamp < MAX_TIMESTAMP && |p.data| >= MAX_PAYLOAD
    ensures var got := ReadTags(EncodeTag(p) + tail).0; got == [] || |got[0].data| < |p.data|
  {
  }

  lemma OversizeFirst(ps: seq<Content>)
    requires ps != [] && ps[0].timestamp < MAX_TIMESTAMP && !Fits(ps[0])
    ensures ReadTags(EncodeTags(ps)).0 != Normals(ps)
  {
    OversizeReads(ps[0], EncodeTags(ps[1..]));
    assert |Normals(ps)[0].data| == |ps[0].data|;
  }

  lemma NormalsTail(ps: seq<Content>, got: seq<Content>)
    requires ps != [] && [Normal(ps[0])] + got == Normals(ps)
    ensures got == Normals(ps[1..])
  {
    assert got == ([Normal(ps[0])] + got)[1..];
    assert Normals(ps)[1..] == Normals(ps[1..]);
  }

  lemma {:induction false} ReadTagsOnlyIf(ps: seq<Content>)
    requires forall p <- ps :: p.timestamp < MAX_TIMESTAMP
    requires ReadTags(EncodeTags(ps)).0 == Normals(ps)
    ensures forall p <- ps :: Fits(p)
  {
    if ps != [] {
      var p, tail := ps[0], ps[1..];
      if !Fits(p) {
        OversizeFirst(ps);
        assert false;
      }
      var bytes := EncodeTags(tail);
      ReadTagsCons(p, bytes);
      NormalsTail(ps, ReadTags(bytes).0);
      ReadTagsOnlyIf(tail);
    }
  }

  /** A file of packets reads back as those packets, then a clean end, if and only if every payload
      fits the size field. */
  lemma FileRoundTrip(ps: seq<Content>)
    requires forall p <- ps :: p.timestamp < MAX_TIMESTAMP
    ensures ReadHeader(EncodeFile(ps)) == Ok((), EncodeTags(ps))
    ensures ReadTags(EncodeTags(ps)) == (Normals(ps), EOF) <==> forall p <- ps :: |p.data| < MAX_PAYLOAD
  {
    ReadFullOf(HEADER, EncodeTags(ps));
    if forall p <- ps :: |p.data| < MAX_PAYLOAD { ReadTagsOf(ps); }
    if ReadTags(EncodeTags(ps)) == (Normals(ps), EOF) { ReadTagsOnlyIf(ps); }
  }

  /** Exactly which sources have a header: 13 bytes that begin with FLV. What follows them is left. */
  lemma HeaderExactly(input: seq<byte>)
    ensures ReadHeader(input) ==
            if input == [] then Err(Wrapped("read header", EOF))
            else if |input| < 13 then Err(Wrapped("read header", UnexpectedEOF))
            else if input[0] == 0x46 && input[1] == 0x4C && input[2] == 0x56 then Ok((), input[13..])
            else Err(BadMagic)
  {
    if |input| >= 13 {
      assert input[..13][..3] == [input[0], input[1], input[2]];
      assert HEADER[..3] == [0x46, 0x4C, 0x56];
    }
  }

  /** Exactly how reading a tag fails, from what is left and the size its header claims. */
  lemma TagFailsExactly(input: seq<byte>)
    ensures |input| < 11 ==> NextTag(input) == Err(if input == [] then EOF else UnexpectedEOF)
    ensures |input| >= 11 ==>
              var size := input[1] as nat * 0x1_0000 + input[2] as nat * 0x100 + input[3] as nat;
              var r := NextTag(input);
              if |input| == 11 && size > 0 then r == Err(Wrapped("read tag data", EOF))
              else if |input| < 11 + size then r == Err(Wrapped("read tag data", UnexpectedEOF))
              else if |input| == 11 + size then r == Err(Wrapped("read prevTagSize", EOF))
              else if |input| < 15 + size then r == Err(Wrapped("read prevTagSize", UnexpectedEOF))
              else r.Ok? && r.value.kind == input[0] && r.value.data == input[11..11 + size] && r.rest == input[15 + size..]
  {
    if |input| >= 11 {
      assert input[..11][1..4] == input[1..4];
      FromThree(input[1..4]);
    }
  }

  // ---- truncation ------------------------------------------------------------------------

  /** How many tags lie wholly within the first `k` bytes. */
  function Contained(ps: seq<Content>, k: nat): (n: nat)
    ensures n <= |ps|
  {
    if ps == [] || k < |EncodeTag(ps[0])| then 0 else 1 + Contained(ps[1..], k - |EncodeTag(ps[0])|)
  }

  /** `k` is the end of some tag (or the start). */
  predicate OnBoundary(ps: seq<Content>, k: nat) {
    exists n | 0 <= n <= |ps| :: k == |EncodeTags(ps[..n])|
  }

  lemma TornTag(p: Content, k: nat)
    requires Fits(p) && k < |EncodeTag(p)|
    ensures var r := NextTag(EncodeTag(p)[..k]); r.Err? && (r.error == EOF <==> k == 0)
  {
    var h, prev := TagHeader(p), Be(11 + |p.data|, 4);
    HeaderFields(p);
    SizeField(|p.data|);
    var cut := EncodeTag(p)[..k];
    if k >= 11 {
      assert cut == h + (p.data + prev)[..k - 11];
      ReadFullOf(h, (p.data + prev)[..k - 11]);
      var body := (p.data + prev)[..k - 11];
      if k - 11 >= |p.data| {
        assert body == p.data + prev[..k - 11 - |p.data|];
        ReadFullOf(p.data, prev[..k - 11 - |p.data|]);
      }
    }
  }

  /** What a reader should have made of the first `k` bytes. */
  ghost predicate TornOutcome(ps: seq<Content>, k: nat, outcome: (seq<Content>, Error)) {
    var c := Contained(ps, k);
    outcome.0 == Normals(ps[..c]) && (outcome.1 == EOF <==> k == |EncodeTags(ps[..c])|)
  }

  lemma TakeAcross(a: seq<byte>, b: seq<byte>, k: nat)
    requires |a| <= k <= |a| + |b|
    ensures (a + b)[..k] == a + b[..k - |a|]
  {
  }

  lemma OutcomeCons(ps: seq<Content>, k: nat, outcome: (seq<Content>, Error))
    requires ps != [] && |EncodeTag(ps[0])| <= k && TornOutcome(ps[1..], k - |EncodeTag(ps[0])|, outcome)
    ensures TornOutcome(ps, k, ([Normal(ps[0])] + outcome.0, outcome.1))
  {
    var c := Contained(ps[1..], k - |EncodeTag(ps[0])|);
    assert ps[..c + 1][1..] == ps[1..][..c];
    assert Normals(ps[..c + 1]) == [Normal(ps[0])] + Normals(ps[1..][..c]);
  }

  lemma TornFirst(ps: seq<Content>, k: nat)
    requires (forall p <- ps :: Fits(p)) && k <= |EncodeTags(ps)| && (ps == [] || k < |EncodeTag(ps[0])|)
    ensures TornOutcome(ps, k, ReadTags(EncodeTags(ps)[..k]))
  {
    assert ps[..0] == [];
    if ps != [] {
      assert EncodeTags(ps)[..k] == EncodeTag(ps[0])[..k];
      TornTag(ps[0], k);
    }
  }

  lemma {:induction false} TornTags(ps: seq<Content>, k: nat)
    requires (forall p <- ps :: Fits(p)) && k <= |EncodeTags(ps)|
    ensures TornOutcome(ps, k, ReadTags(EncodeTags(ps)[..k]))
  {
    if ps == [] || k < |EncodeTag(ps[0])| {
      TornFirst(ps, k);
    } else {
      var tail, j := ps[1..], k - |EncodeTag(ps[0])|;
      var whole, cut := EncodeTags(ps)[..k], EncodeTags(tail)[..j];
      TakeAcross(EncodeTag(ps[0]), EncodeTags(tail), k);
      assert whole == EncodeTag(ps[0]) + cut;
      TornTags(tail, j);
      ReadTagsCons(ps[0], cut);
      OutcomeCons(ps, k, ReadTags(cut));
    }
  }

  lemma {:induction false} BoundaryIsContained(ps: seq<Content>, k: nat)
    ensures OnBoundary(ps, k) <==> k == |EncodeTags(ps[..Contained(ps, k)])|
  {
    if OnBoundary(ps, k) {
      var n :| 0 <= n <= |ps| && k == |EncodeTags(ps[..n])|;
      ContainedAt(ps, n);
    }
  }

  lemma {:induction false} ContainedAt(ps: seq<Content>, n: nat)
    requires n <= |ps|
    ensures Contained(ps, |EncodeTags(ps[..n])|) == n
  {
    if n == 0 {
      assert ps[..0] == [];
    } else {
      assert ps[..n][1..] == ps[1..][..n - 1];
      ContainedAt(ps[1..], n - 1);
    }
  }

  /** Cutting a file anywhere after its header leaves a reader with exactly the packets wholly before
      the cut, and with a bare end of file exactly when the cut falls between tags. */
  lemma Truncation(ps: seq<Content>, k: nat)
    requires (forall p <- ps :: Fits(p)) && 13 <= k <= |EncodeFile(ps)|
    ensures var r := ReadHeader(EncodeFile(ps)[..k]);
            r.Ok? && var (got, e) := ReadTags(r.rest);
            got == Normals(ps[..Contained(ps, k - 13)]) && (e == EOF <==> OnBoundary(ps, k - 13))
  {
    TakeAcross(HEADER, EncodeTags(ps), k);
    ReadFullOf(HEADER, EncodeTags(ps)[..k - 13]);
    TornTags(ps, k - 13);
    BoundaryIsContained(ps, k - 13);
  }

  /** A file cut inside its header is refused, and never as a clean end. */
  lemma TruncatedHeader(ps: seq<Content>, k: nat)
    requires k < 13
    ensures var r := ReadHeader(EncodeFile(ps)[..k]); r.Err? && r.error.Wrapped?
  {
  }

  // ---- walking backward ------------------------------------------------------------------

  /** The tag boundaries met when stepping back from the end by PreviousTagSize until it is zero. */
  function WalkBack(file: seq<byte>, end: nat): (r: seq<nat>)
    requires end <= |file|
    decreases end
  {
    if end < 4 then [end]
    else
      var size := FromBe(file[end - 4..end]);
      if size == 0 || size + 4 > end then [end] else [end] + WalkBack(file, end - 4 - size)
  }

  /** The ends of the tags of a file, last first, down to the end of the header. */
  function Boundaries(ps: seq<Content>): (r: seq<nat>) {
    if ps == [] then [13] else [|EncodeFile(ps)|] + Boundaries(ps[..|ps| - 1])
  }

  lemma {:induction false} EncodeSnoc(ps: seq<Content>, p: Content)
    ensures EncodeTags(ps + [p]) == EncodeTags(ps) + EncodeTag(p)
  {
    if ps == [] {
      assert EncodeTags([p][1..]) == [];
    } else {
      assert (ps + [p])[1..] == ps[1..] + [p];
      EncodeSnoc(ps[1..], p);
    }
  }

  lemma LastFour(a: seq<byte>, x: seq<byte>, b: seq<byte>, file: seq<byte>)
    requires |b| == 4 && a + (x + b) <= file
    ensures var end := |a| + |x| + 4; a <= file && file[end - 4..end] == b
  {
  }

  lemma Assoc(a: seq<byte>, b: seq<byte>, c: seq<byte>)
    ensures a + (b + c) == (a + b) + c
  {
  }

  lemma FileSnoc(ps: seq<Content>)
    requires ps != []
    ensures var init, p := ps[..|ps| - 1], ps[|ps| - 1];
            EncodeFile(ps) == EncodeFile(init) + (TagHeader(p) + p.data + Be(11 + |p.data|, 4))
  {
    var init, p := ps[..|ps| - 1], ps[|ps| - 1];
    EncodeSnoc(init, p);
    assert ps == init + [p];
    Assoc(HEADER, EncodeTags(init), EncodeTag(p));
  }

  lemma PreviousSizeField(n: nat)
    requires n < MAX_PAYLOAD
    ensures FromBe(Be(11 + n, 4)) == 11 + n
  {
    Widths();
    BeRoundTrip(11 + n, 4);
  }

  lemma LastPreviousSize(ps: seq<Content>, file: seq<byte>)
    requires ps != [] && EncodeFile(ps) <= file
    ensures var init, p, end := ps[..|ps| - 1], ps[|ps| - 1], |EncodeFile(ps)|;
            EncodeFile(init) <= file && end == |EncodeFile(init)| + 15 + |p.data|
            && file[end - 4..end] == Be(11 + |p.data|, 4)
  {
    var init, p := ps[..|ps| - 1], ps[|ps| - 1];
    var head, size := TagHeader(p) + p.data, Be(11 + |p.data|, 4);
    FileSnoc(ps);
    LastFour(EncodeFile(init), head, size, file);
  }

  lemma WalkBackStep(file: seq<byte>, end: nat, size: nat)
    requires 4 <= end <= |file| && 0 < size <= end - 4 && FromBe(file[end - 4..end]) == size
    ensures WalkBack(file, end) == [end] + WalkBack(file, end - 4 - size)
  {
  }

  lemma WalkBackStops(file: seq<byte>)
    requires HEADER <= file
    ensures WalkBack(file, 13) == [13]
  {
    assert file[9..13] == [0, 0, 0, 0];
    assert [0, 0, 0, 0] == Be(0, 4);
    Widths();
    BeRoundTrip(0, 4);
  }

  lemma WalkBackOver(ps: seq<Content>, file: seq<byte>)
    requires ps != [] && Fits(ps[|ps| - 1]) && EncodeFile(ps) <= file
    ensures var init := ps[..|ps| - 1];
            EncodeFile(init) <= file
            && WalkBack(file, |EncodeFile(ps)|) == [|EncodeFile(ps)|] + WalkBack(file, |EncodeFile(init)|)
  {
    var p := ps[|ps| - 1];
    LastPreviousSize(ps, file);
    PreviousSizeField(|p.data|);
    WalkBackStep(file, |EncodeFile(ps)|, 11 + |p.data|);
  }

  lemma {:induction false} WalkBackFrom(ps: seq<Content>, file: seq<byte>)
    requires (forall p <- ps :: Fits(p)) && EncodeFile(ps) <= file
    ensures WalkBack(file, |EncodeFile(ps)|) == Boundaries(ps)
  {
    if ps == [] {
      WalkBackStops(file);
    } else {
      WalkBackOver(ps, file);
      WalkBackFrom(ps[..|ps| - 1], file);
    }
  }

  /** Reading PreviousTagSize from the end back meets the same boundaries as writing met forward. */
  lemma BackwardWalk(ps: seq<Content>)
    requires forall p <- ps :: Fits(p)
    ensures WalkBack(EncodeFile(ps), |EncodeFile(ps)|) == Boundaries(ps)
  {
    WalkBackFrom(ps, EncodeFile(ps));
  }

  // ---- the reader and writer themselves --------------------------------------------------

  lemma HeaderBytes(h: seq<byte>, p: Content)
    requires |h| == 11 && h[0] == p.kind && h[8] == h[9] == h[10] == 0
    requires var n := |p.data|; h[1] == n / 0x1_0000 % 256 && h[2] == n / 0x100 % 256 && h[3] == n % 256
    requires var t := p.timestamp; h[4] == t / 0x1_0000 % 256 && h[5] == t / 0x100 % 256 && h[6] == t % 256
    requires h[7] == p.timestamp / 0x100_0000 % 256
    ensures h == TagHeader(p)
  {
    ThreeBytes(|p.data|);
    ThreeBytes(p.timestamp);
    assert h[1..4] == Be(|p.data|, 3);
    assert h[4..7] == Be(p.timestamp, 3);
    assert h[7..8] == Be(p.timestamp / MAX_PAYLOAD, 1);
    assert h == [h[0]] + h[1..4] + h[4..7] + h[7..8] + h[8..11];
  }

  /** A byte sink that accepts every write. */
  class Writer {
    var out: seq<byte>

    constructor ()
      ensures out == []
    {
      out := [];
    }

    method WriteFileHeader()
      modifies this
      ensures out == old(out) + [0x46, 0x4C, 0x56, 0x01, 0x05, 0, 0, 0, 9, 0, 0, 0, 0]
    {
      out := out + HEADER;
    }

    method WriteTag(p: Content)
      modifies this
      ensures out == old(out) + EncodeTag(p)
    {
      var dataLen, ts := |p.data|, p.timestamp;
      var hdr := new byte[11];
      hdr[0] := p.kind;
      hdr[1] := dataLen / 0x1_0000 % 256;
      hdr[2] := dataLen / 0x100 % 256;
      hdr[3] := dataLen % 256;
      hdr[4] := ts / 0x1_0000 % 256;
      hdr[5] := ts / 0x100 % 256;
      hdr[6] := ts % 256;
      hdr[7] := ts / 0x100_0000 % 256;
      hdr[8], hdr[9], hdr[10] := 0, 0, 0;
      HeaderBytes(hdr[..], p);
      out := out + hdr[..];
      out := out + p.data;
      out := out + Be(11 + dataLen, 4);
    }
  }
}
