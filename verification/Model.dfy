/** Values shared by every component: addresses, mask kinds, policer specifications. */
module Model {
  datatype Option<+T> = None | Some(value: T)

  /** The outcome of a call that may fail. */
  datatype Result<+T> = Ok(value: T) | Err

  type Byte = x: int | 0 <= x < 256

  type Word16 = x: int | 0 <= x < 0x1_0000
  type Word32 = x: int | 0 <= x < 0x1_0000_0000

  type Octets4 = s: seq<Byte> | |s| == 4 witness [0, 0, 0, 0]
  type Octets16 = s: seq<Byte> | |s| == 16
    witness [0, 0, 0, 0, 0, 0, 0, 0, 0, 0, 0, 0, 0, 0, 0, 0]

  /** `netip.Addr`; `NoAddr` is its zero value. IPv6 zones are not modelled. */
  datatype Addr = NoAddr | V4(o4: Octets4) | V6(o16: Octets16) {
    predicate IsValid() { !NoAddr? }

    predicate Is4In6() {
      V6? && (forall i | 0 <= i < 10 :: o16[i] == 0) && o16[10] == 255 && o16[11] == 255
    }
  }

  datatype Prefix = Prefix(addr: Addr, bits: nat)

  /** The six fixed classify masks; any other code the controller might send is `UnknownMask`. */
  datatype MaskKind =
    | IP4Dst32 | IP4Dst24 | IP6Dst128
    | IP4Src32 | IP4Src24 | IP6Src128
    | UnknownMask(code: nat)

  type PoolID = string

  datatype RateType = Kbps | Pps | UnknownRate
  datatype PolicerAction = Transmit | Drop | MarkAndTransmit

  datatype PolicerSpec = PolicerSpec(
    name: string, poolID: PoolID, cir: nat, rateType: RateType,
    burstBytes: nat, burstPackets: nat,
    colorAware: bool, conform: PolicerAction, exceed: PolicerAction)

  /** The sentinel VPP uses for "no table" and "no hit" (~0). */
  const NO_TABLE: nat := 0xFFFF_FFFF
}
