/** The packfile response (internal/gitcache/packserve.go), framed as pkt-lines with
    side-band data (Git's gitprotocol-common and gitprotocol-pack), and a reader for it. */
module PackServe {
  import opened Prelude

  const MAX_PACKET: nat := 65520
  /** Room for pack data: a packet less its length field and the band byte. */
  const MAX_PAYLOAD: nat := MAX_PACKET - 4 - 1

  const BAND_PACK: byte := 1

  /** "packfile\n" */
  const SECTION_HEADER: Bytes := [0x70, 0x61, 0x63, 0x6b, 0x66, 0x69, 0x6c, 0x65, 0x0a]

  /** "0000" */
  const FLUSH: Bytes := [0x30, 0x30, 0x30, 0x30]

  // ----- Framing -----

  function HexDigit(d: nat): byte
    requires d < 16
  {
    if d < 10 then (0x30 + d) as byte else (0x61 + d - 10) as byte
  }

  function HexValue(b: byte): Option<nat> {
    if 0x30 <= b <= 0x39 then Some(b as nat - 0x30)
    else if 0x61 <= b <= 0x66 then Some(b as nat - 0x61 + 10)
    else None
  }

  /** Four lower-case hexadecimal digits. */
  function Hex4(n: nat): (r: Bytes)
    requires n < 0x1_0000
    ensures |r| == 4
  {
    [HexDigit(n / 0x1000), HexDigit(n / 0x100 % 0x10), HexDigit(n / 0x10 % 0x10), HexDigit(n % 0x10)]
  }

  function FromHex4(b: Bytes): Option<nat>
    requires |b| >= 4
  {
    var d0, d1, d2, d3 := HexValue(b[0]), HexValue(b[1]), HexValue(b[2]), HexValue(b[3]);
    if d0.Some? && d1.Some? && d2.Some? && d3.Some?
    then Some(((d0.value * 0x10 + d1.value) * 0x10 + d2.value) * 0x10 + d3.value)
    else None
  }

  function PktLine(payload: Bytes): Bytes
    requires |payload| + 4 <= MAX_PACKET
  {
    Hex4(|payload| + 4) + payload
  }

  // ----- The writer side -----

  /** An io.Writer that fails after `quota` writes, possibly in the middle of one. */
  class Writer {
    var data: Bytes
    var quota: Option<nat>
    const torn: nat

    constructor (quota: Option<nat>, torn: nat)
      ensures data == [] && this.quota == quota
    {
      data, this.quota, this.torn := [], quota, torn;
    }

    method Write(b: Bytes) returns (ok: bool)
      modifies this
      ensures ok ==> data == old(data) + b
      ensures old(data) <= data <= old(data) + b
      ensures old(quota).None? ==> ok && quota.None?
    {
      if quota == Some(0) {
        data := data + b[..if torn <= |b| then torn else |b|];
        return false;
      }
      data := data + b;
      quota := if quota.Some? then Some(quota.value - 1) else None;
      ok := true;
    }
  }

  /** What the next packet carries. */
  function FirstChunk(rest: Bytes): (chunk: Bytes)
    ensures |chunk| <= MAX_PAYLOAD && chunk <= rest && (rest != [] ==> chunk != [])
  {
    if |rest| > MAX_PAYLOAD then rest[..MAX_PAYLOAD] else rest
  }

  /** The side-band packets for pack data. */
  function Bands(pack: Bytes): Bytes {
    if pack == [] then []
    else PktLine([BAND_PACK] + FirstChunk(pack)) + Bands(pack[|FirstChunk(pack)|..])
  }

  function FetchResponse(pack: Bytes): Bytes {
    PktLine(SECTION_HEADER) + Bands(pack) + FLUSH
  }

  /** What is still to be written when `rest` is left of the pack data. */
  function Tail(rest: Bytes): Bytes {
    Bands(rest) + FLUSH
  }

  lemma TailStep(before: Bytes, rest: Bytes)
    requires rest != []
    ensures var chunk := FirstChunk(rest);
            before + Tail(rest) == (before + PktLine([BAND_PACK] + chunk)) + Tail(rest[|chunk|..])
  {
    var chunk := FirstChunk(rest);
    var packet, bands := PktLine([BAND_PACK] + chunk), Bands(rest[|chunk|..]);
    assert Bands(rest) == packet + bands;
    hide PktLine;
    hide Bands;
    Regroup(before, packet, bands, FLUSH);
  }

  lemma Regroup(a: Bytes, b: Bytes, c: Bytes, d: Bytes)
    ensures a + (b + c + d) == (a + b) + (c + d)
  {}

  method WriteFetchResponse(w: Writer, packData: Bytes) returns (ok: bool)
    modifies w
    ensures ok ==> w.data == old(w.data) + FetchResponse(packData)
    ensures w.data <= old(w.data) + FetchResponse(packData)
    ensures old(w.quota).None? ==> ok
  {
    ghost var whole := old(w.data) + FetchResponse(packData);
    assert whole == old(w.data) + PktLine(SECTION_HEADER) + Tail(packData);
    ok := w.Write(PktLine(SECTION_HEADER));
    if !ok {
      return;
    }
    var rest := packData;
    while |rest| > 0
      invariant w.data + Tail(rest) == whole
      invariant old(w.quota).None? ==> w.quota.None?
      decreases |rest|
    {
      var chunk := rest;
      if |chunk| > MAX_PAYLOAD {
        chunk := rest[..MAX_PAYLOAD];
      }
      TailStep(w.data, rest);
      rest := rest[|chunk|..];
      ok := w.Write(PktLine([BAND_PACK] + chunk));
      if !ok {
        return;
      }
    }
    assert Tail(rest) == FLUSH;
    ok := w.Write(FLUSH);
  }

  // ----- The reader side -----

  datatype Packet = Flush | Data(payload: Bytes)

  /** Splits a stream into pkt-lines. The special packets other than flush do not occur in
      this response and count as malformed, as does a truncated packet. */
  function Packets(stream: Bytes): Option<seq<Packet>>
    decreases |stream|
  {
    if stream == [] then Some([])
    else if |stream| < 4 then None
    else
      var len := FromHex4(stream);
      if len.None? then None
      else if len.value == 0 then
        var rest := Packets(stream[4..]);
        if rest.None? then None else Some([Flush] + rest.value)
      else if len.value < 4 || len.value > |stream| then None
      else
        var rest := Packets(stream[len.value..]);
        if rest.None? then None else Some([Data(stream[4..len.value])] + rest.value)
  }

  /** The data a response carries: the section header "packfile" with a line feed, packets of
      band 1, and a flush at the end. */
  function Demultiplex(packets: seq<Packet>): Option<Bytes> {
    var header: Bytes := [0x70, 0x61, 0x63, 0x6b, 0x66, 0x69, 0x6c, 0x65, 0x0a];
    if |packets| < 2 || packets[0] != Data(header) || packets[|packets| - 1] != Flush then None
    else Pack(packets[1..|packets| - 1])
  }

  function Pack(bands: seq<Packet>): Option<Bytes> {
    if bands == [] then Some([])
    else if bands[0].Flush? || bands[0].payload == [] || bands[0].payload[0] != 1 then None
    else
      var rest := Pack(bands[1..]);
      if rest.None? then None else Some(bands[0].payload[1..] + rest.value)
  }

  /** The packets the response consists of. */
  function BandPackets(pack: Bytes): seq<Packet> {
    if pack == [] then []
    else [Data([BAND_PACK] + FirstChunk(pack))] + BandPackets(pack[|FirstChunk(pack)|..])
  }

  const HEX_DIGITS: string := "0123456789abcdef"

  /** The length field is the number in hexadecimal, most significant digit first. */
  lemma Hex4IsHexadecimal(n: nat)
    requires n < 0x1_0000
    ensures |Hex4(n)| == 4 && |HEX_DIGITS| == 16
    ensures Hex4(n)[0] as int == HEX_DIGITS[n / 4096] as int
    ensures Hex4(n)[1] as int == HEX_DIGITS[n / 256 % 16] as int
    ensures Hex4(n)[2] as int == HEX_DIGITS[n / 16 % 16] as int
    ensures Hex4(n)[3] as int == HEX_DIGITS[n % 16] as int
  {}

  lemma Hex4RoundTrip(n: nat, rest: Bytes)
    requires n < 0x1_0000
    ensures FromHex4(Hex4(n) + rest) == Some(n)
  {
    assert n / 0x100 == n / 0x1000 * 0x10 + n / 0x100 % 0x10;
    assert n / 0x10 == n / 0x100 * 0x10 + n / 0x10 % 0x10;
    assert n == n / 0x10 * 0x10 + n % 0x10;
  }

  lemma ReadPacket(payload: Bytes, rest: Bytes)
    requires |payload| + 4 <= MAX_PACKET && Packets(rest).Some?
    ensures Packets(PktLine(payload) + rest) == Some([Data(payload)] + Packets(rest).value)
  {
    var n, stream := |payload| + 4, PktLine(payload) + rest;
    assert stream == Hex4(n) + (payload + rest);
    Hex4RoundTrip(n, payload + rest);
    assert stream[4..n] == payload && stream[n..] == rest;
  }

  lemma ReadFlush()
    ensures Packets(FLUSH) == Some([Flush])
  {
    var rest := FLUSH[4..];
    assert rest == [] && FromHex4(FLUSH) == Some(0);
    assert Packets(rest) == Some([]);
    assert [Flush] + Packets(rest).value == [Flush];
  }

  lemma {:induction false} ReadBands(pack: Bytes)
    ensures Packets(Tail(pack)) == Some(BandPackets(pack) + [Flush])
    decreases |pack|
  {
    if pack == [] {
      ReadFlush();
      assert Tail(pack) == FLUSH;
      assert BandPackets(pack) + [Flush] == [Flush];
    } else {
      var chunk := FirstChunk(pack);
      var rest := pack[|chunk|..];
      ReadBands(rest);
      ReadPacket([BAND_PACK] + chunk, Tail(rest));
      TailStep([], pack);
      assert [] + Tail(pack) == Tail(pack);
      assert [] + PktLine([BAND_PACK] + chunk) == PktLine([BAND_PACK] + chunk);
      BandPacketsStep(pack);
    }
  }

  lemma BandPacketsStep(pack: Bytes)
    requires pack != []
    ensures var chunk := FirstChunk(pack);
            BandPackets(pack) + [Flush] == [Data([BAND_PACK] + chunk)] + (BandPackets(pack[|chunk|..]) + [Flush])
  {}

  lemma {:induction false} PackOfBands(pack: Bytes)
    ensures Pack(BandPackets(pack)) == Some(pack)
    decreases |pack|
  {
    if pack != [] {
      var chunk := FirstChunk(pack);
      var rest := pack[|chunk|..];
      assert BandPackets(pack) == [Data([BAND_PACK] + chunk)] + BandPackets(rest);
      assert pack == chunk + rest;
      PackOfBands(rest);
      PackStep(chunk, BandPackets(rest));
    }
  }

  lemma PackStep(chunk: Bytes, rest: seq<Packet>)
    requires Pack(rest).Some?
    ensures Pack([Data([BAND_PACK] + chunk)] + rest) == Some(chunk + Pack(rest).value)
  {
    var band := [BAND_PACK] + chunk;
    var bands := [Data(band)] + rest;
    assert bands[0] == Data(band) && bands[1..] == rest && band[1..] == chunk;
  }

  lemma {:induction false} BandShape(pack: Bytes)
    ensures |BandPackets(pack)| == (|pack| + MAX_PAYLOAD - 1) / MAX_PAYLOAD
    ensures forall i :: 0 <= i < |BandPackets(pack)| ==>
              && BandPackets(pack)[i].Data?
              && |BandPackets(pack)[i].payload| + 4 <= MAX_PACKET
              && |BandPackets(pack)[i].payload| > 1
              && BandPackets(pack)[i].payload[0] == BAND_PACK
    decreases |pack|
  {
    if |pack| > MAX_PAYLOAD {
      BandShape(pack[MAX_PAYLOAD..]);
      assert (|pack| + MAX_PAYLOAD - 1) / MAX_PAYLOAD == (|pack| - MAX_PAYLOAD + MAX_PAYLOAD - 1) / MAX_PAYLOAD + 1;
    } else if pack != [] {
      assert pack[|pack|..] == [];
    }
  }

  lemma ReadResponse(pack: Bytes)
    ensures Packets(FetchResponse(pack)) == Some([Data(SECTION_HEADER)] + BandPackets(pack) + [Flush])
  {
    ReadBands(pack);
    ReadPacket(SECTION_HEADER, Tail(pack));
    assert FetchResponse(pack) == PktLine(SECTION_HEADER) + Tail(pack);
    assert [Data(SECTION_HEADER)] + BandPackets(pack) + [Flush] ==
           [Data(SECTION_HEADER)] + (BandPackets(pack) + [Flush]);
  }

  /** Reading back the response gives exactly the pack data. The header comes first, then as
      many band-1 packets as the data needs, none longer than 65520 bytes or empty, and
      one flush at the end. */
  lemma ResponseRoundTrip(pack: Bytes)
    ensures var packets := [Data(SECTION_HEADER)] + BandPackets(pack) + [Flush];
            && Packets(FetchResponse(pack)) == Some(packets)
            && Demultiplex(packets) == Some(pack)
    ensures |BandPackets(pack)| == (|pack| + 65514) / 65515
    ensures forall i :: 0 <= i < |BandPackets(pack)| ==>
              && BandPackets(pack)[i].Data?
              && 1 < |BandPackets(pack)[i].payload| <= 65516
              && BandPackets(pack)[i].payload[0] == 1
    ensures var response := FetchResponse(pack);
            |response| >= 4 && response[|response| - 4..] == [0x30, 0x30, 0x30, 0x30]
  {
    var packets := [Data(SECTION_HEADER)] + BandPackets(pack) + [Flush];
    ReadResponse(pack);
    assert packets[1..|packets| - 1] == BandPackets(pack);
    PackOfBands(pack);
    BandShape(pack);
  }
}
