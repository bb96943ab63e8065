/**
 * DMR frames as the bridge passes them around. The forward-error-corrected burst is represented
 * by what DVMHost's header and block decoders return for it; those decoders are not part of
 * this model.
 */
module Dmr {
  import opened Common

  type nibble = x: int | 0 <= x < 16

  /** Data type information element; voice frames carry no data type of their own. */
  datatype DataType = VoiceSync | Voice | Data(code: nibble)

  const CSBK := Data(3)
  const DATA_HEADER := Data(6)
  const RATE_12_DATA := Data(7)
  const RATE_34_DATA := Data(8)
  const RATE_1_DATA := Data(10)

  /** isPayloadDataType */
  predicate IsPayloadDataType(t: DataType) {
    t == RATE_12_DATA || t == RATE_34_DATA || t == RATE_1_DATA
  }

  datatype Dpf = ConfirmedData | UnconfirmedData | DefinedShort | OtherFormat
  datatype Sap = PacketData | ShortData | OtherSap

  datatype DataHeader = DataHeader(dpf: Dpf, sap: Sap, acknowledge: bool, blocksToFollow: nat, padLength: nat, ns: nat)

  /** A confirmed block carries its serial number; an unconfirmed one only its bytes. */
  datatype NumberedBlock = NumberedBlock(serial: nat, bytes: seq<byte>)

  /** A preamble control block: how many frames follow, and the 24-bit radio ids. */
  datatype Preamble = Preamble(blocksToFollow: byte, target: nat, source: nat)

  /** Decoder results for one burst: as a preamble, a header, an unconfirmed block, a confirmed block. */
  datatype Burst = Burst(preamble: Option<Preamble>, header: Option<DataHeader>, plain: Option<seq<byte>>, numbered: Option<NumberedBlock>)

  /** NetData, over the kind of payload `P` it carries. */
  datatype Frame<+P> = Frame(src: uint32, dst: uint32, slot: nat, isPrivate: bool, n: nat, seqNo: byte,
                            dataType: DataType, ber: byte, rssi: byte, payload: P)
}
