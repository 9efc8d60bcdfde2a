/** Bytes as they travel over the USB serial line, and the fixed byte strings
    the firmware compares against. */
module Ascii {

  /** An 8-bit byte (`uint8_t`, or a `char` of the receive buffer). */
  newtype byte = x: int | 0 <= x < 256

  const CR: byte := 0x0D
  const LF: byte := 0x0A

  /** One poll of the serial receiver: `usb_serial_getchar` answers -1 while no
      byte is waiting, and otherwise the byte it took from the queue. */
  datatype Rx = Idle | Got(b: byte)

  /** The characters a line may hold: space through tilde. */
  predicate IsPrintable(b: byte) {
    0x20 <= b <= 0x7E
  }

  /** Carriage return or line feed: each one ends a line. */
  predicate IsLineEnd(b: byte) {
    b == CR || b == LF
  }

  /** "verify" */
  const VerifyKeyword: seq<byte> := [0x76, 0x65, 0x72, 0x69, 0x66, 0x79]

  /** "store" */
  const StoreKeyword: seq<byte> := [0x73, 0x74, 0x6F, 0x72, 0x65]

  const Space: byte := 0x20

  /** The EEPROM contents the device is flashed with: "42" thirty-two times. */
  function FactoryNonce(): (s: seq<byte>)
    ensures |s| == 64
    ensures forall i :: 0 <= i < |s| ==> IsPrintable(s[i])
  {
    seq(64, i requires 0 <= i < 64 => if i % 2 == 0 then 0x34 else 0x32)
  }

  /** Bytes sent one after another with no idle polls in between. */
  function Send(line: seq<byte>): (rx: seq<Rx>)
    ensures |rx| == |line|
    ensures forall i :: 0 <= i < |line| ==> rx[i] == Got(line[i])
  {
    seq(|line|, i requires 0 <= i < |line| => Got(line[i]))
  }

  predicate AllPrintable(s: seq<byte>) {
    forall i :: 0 <= i < |s| ==> IsPrintable(s[i])
  }
}
