/** The fixed RTP header of RFC 3550, section 5.1, as the writer lays it out. */
module Rtp {
  import opened Bytes
  import opened Results

  const HEADER_SIZE := 12
  const VERSION_BYTE: Byte := 0x80

  datatype Packet = Packet(marker: bool, payloadType: nat, seqNum: Word16, timestamp: Word32, ssrc: Word32, payload: seq<Byte>)

  function Header(typeByte: Byte, seqNum: Word16, timestamp: Word32, ssrc: Word32): (r: seq<Byte>)
    ensures |r| == HEADER_SIZE
  {
    [VERSION_BYTE, typeByte] + Be16(seqNum) + Be32(timestamp) + Be32(ssrc)
  }

  /** A receiver's reading of a packet without padding, extension or contributing sources. */
  function Parse(b: seq<Byte>): (r: Option<Packet>) {
    if |b| < 12 || b[0] / 64 != 2 || b[0] % 64 != 0 then None
    else
      Some(Packet(b[1] >= 128, b[1] % 128, FromBe16(b[2..4]), FromBe32(b[4..8]), FromBe32(b[8..12]), b[12..]))
  }

  /** The receiver reads back every field; a type byte above 127 shows as the marker bit. */
  lemma ParseHeader(typeByte: Byte, seqNum: Word16, timestamp: Word32, ssrc: Word32, payload: seq<Byte>)
    ensures Parse(Header(typeByte, seqNum, timestamp, ssrc) + payload)
         == Some(Packet(typeByte >= 128, typeByte % 128, seqNum, timestamp, ssrc, payload))
  {
    var b := Header(typeByte, seqNum, timestamp, ssrc) + payload;
    assert b[2..4] == Be16(seqNum);
    assert b[4..8] == Be32(timestamp);
    assert b[8..12] == Be32(ssrc);
    assert b[12..] == payload;
  }
}
