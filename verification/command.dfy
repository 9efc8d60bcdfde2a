/** `do_command` and the retry guard of the main loop, as functions of the
    session state and the receive buffer. */
module Command {
  import opened Ascii

  /** `NONCESIZE` */
  const NonceSize := 64
  /** `sizeof(buf)` in `main` */
  const BufSize := 128
  /** Failed verifications allowed before every line is refused. */
  const MaxTries := 3

  /** The status lines the device sends back. */
  datatype Reply =
    | Welcome             // 200
    | Verified            // 201
    | NonceWritten        // 202
    | UnknownCommand      // 400
    | VerificationFailed  // 401
    | NotVerified         // 402
    | InvalidNonce        // 403
    | TriesExceeded       // 404

  /** The text `send_str` puts on the wire for each reply. */
  function Text(r: Reply): (line: string) {
    match r
    case Welcome => "200 Welcome\r\n"
    case Verified => "201 Verified\r\n"
    case NonceWritten => "202 Nonce written\r\n"
    case UnknownCommand => "400 Unknown command\r\n"
    case VerificationFailed => "401 Verification failed\r\n"
    case NotVerified => "402 Not verified\r\n"
    case InvalidNonce => "403 Invalid nonce\r\n"
    case TriesExceeded => "404 Number of tries exceeded\r\n"
  }

  /** The globals of one boot: the working nonce `g_nonce`, the failed-attempt
      counter `g_verifycnt`, the flag `g_verified`, and the EEPROM block
      `g_ee_nonce`. */
  datatype State = State(nonce: seq<byte>, verifyCount: nat, verified: bool, eeNonce: seq<byte>)

  /** Power-up: flag and counter cleared, working nonce read from the EEPROM. */
  function Boot(ee: seq<byte>): (s: State)
    ensures Secure(s) && !s.verified && s.verifyCount == 0
    ensures s.nonce == ee && s.eeNonce == ee
  {
    State(ee, 0, false, ee)
  }

  /** What the firmware keeps true for a whole boot: at most three failed
      attempts, and a verified session was verified before the third one. */
  predicate Secure(s: State) {
    s.verifyCount <= MaxTries && (s.verified ==> s.verifyCount < MaxTries)
  }

  /** `strncmp_P(buf, "verify", 6) == 0`: only the first six bytes are looked at. */
  predicate IsVerify(buf: seq<byte>)
    requires |buf| == BufSize
  {
    buf[..6] == VerifyKeyword
  }

  /** `strncmp_P(buf, "store", 5) == 0`: only the first five bytes are looked at. */
  predicate IsStore(buf: seq<byte>)
    requires |buf| == BufSize
  {
    buf[..5] == StoreKeyword
  }

  /** The nonce a `verify` line offers: the 64 bytes after "verify ", whatever
      the length of the line. */
  function VerifyOperand(buf: seq<byte>): (nonce: seq<byte>)
    requires |buf| == BufSize
  {
    buf[7..7 + NonceSize]
  }

  /** The nonce a `store` line offers: the 64 bytes from offset 6. */
  function StoreOperand(buf: seq<byte>): (nonce: seq<byte>)
    requires |buf| == BufSize
  {
    buf[6..6 + NonceSize]
  }

  /** `do_command(buf, n)`: the reply to the line held in `buf`, of which the
      last call of `recv_str` stored `n` bytes, and the state afterwards. */
  function Dispatch(s: State, buf: seq<byte>, n: nat): (out: (Reply, State))
    requires |buf| == BufSize
    // The working nonce is never changed.
    ensures out.1.nonce == s.nonce
    // The counter moves only on a failed verify, and then by one.
    ensures out.1.verifyCount == s.verifyCount + (if out.0 == VerificationFailed then 1 else 0)
    // The flag only goes up, and only with a 201.
    ensures out.1.verified == (s.verified || out.0 == Verified)
    // The EEPROM changes only with a 202, and then holds the store operand.
    ensures out.1.eeNonce == (if out.0 == NonceWritten then StoreOperand(buf) else s.eeNonce)
    ensures out.0 == Verified <==> !s.verified && IsVerify(buf) && VerifyOperand(buf) == s.nonce
    ensures out.0 == VerificationFailed <==> !s.verified && IsVerify(buf) && VerifyOperand(buf) != s.nonce
    ensures out.0 == NotVerified <==> !s.verified && IsStore(buf)
    ensures out.0 == InvalidNonce <==> s.verified && IsStore(buf) && n < 6 + NonceSize
    ensures out.0 == NonceWritten <==> s.verified && IsStore(buf) && n >= 6 + NonceSize
    // A second verify in the same boot is not recognised at all.
    ensures out.0 == UnknownCommand <==> !IsStore(buf) && (s.verified || !IsVerify(buf))
  {
    // The two keywords differ in their first byte.
    assert IsVerify(buf) ==> !IsStore(buf) by {
      if IsVerify(buf) { assert buf[0] == buf[..6][0] == 0x76 && buf[..5][0] == buf[0]; }
    }
    if IsVerify(buf) && !s.verified then
      if VerifyOperand(buf) == s.nonce then (Verified, s.(verified := true))
      else (VerificationFailed, s.(verifyCount := s.verifyCount + 1))
    else if IsStore(buf) then
      if !s.verified then (NotVerified, s)
      else if n < 6 + NonceSize then (InvalidNonce, s)
      else (NonceWritten, s.(eeNonce := StoreOperand(buf)))
    else (UnknownCommand, s)
  }

  /** One pass of the main loop after a line was read: `do_command` while
      fewer than three verifications have failed, and 404 otherwise. */
  function Iteration(s: State, buf: seq<byte>, n: nat): (out: (Reply, State))
    requires |buf| == BufSize
    ensures Secure(s) ==> Secure(out.1)
    ensures out.1.nonce == s.nonce
    ensures s.verified ==> out.1.verified
    ensures out.0 == TriesExceeded <==> s.verifyCount >= MaxTries
    ensures s.verifyCount >= MaxTries ==> out.1 == s
    ensures Secure(s) && s.verified ==> out.0 != TriesExceeded
    ensures out.0 != Welcome
  {
    if s.verifyCount < MaxTries then Dispatch(s, buf, n) else (TriesExceeded, s)
  }
}
