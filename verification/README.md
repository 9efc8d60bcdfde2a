# MARK-Key nonce device, modelled in Dafny

MARK-Key is a USB-serial key. Its firmware (`src/main.c`) reads
command lines and answers each with a status line:

- `verify <nonce>` unlocks the session when the 64-byte nonce matches the
  working copy `g_nonce`;
- `store <nonce>` writes a new nonce to the EEPROM block `g_ee_nonce`, and
  only in a verified session;
- after three failed verifications every line is refused with 404.

This project models the line reader `recv_str`, the dispatcher `do_command`
with the globals `g_nonce`, `g_verifycnt`, `g_verified` and `g_ee_nonce`,
and the main loop that applies the retry ceiling. It proves the properties
the firmware relies on.

Modules:

- `Ascii` (`ascii.dfy`) holds bytes and one poll of the serial receiver.
  `Idle` stands for `usb_serial_getchar` answering -1. The module also holds
  the two keywords and the factory nonce "42" × 32.
- `LineReader` (`line_reader.dfy`) holds `Scan`, which specifies one call of
  `recv_str` over a stream of polls: the bytes stored, the polls consumed,
  and whether the call returned. It also holds the characterisation and
  round-trip lemmas about `Scan`, and `RecvStr`, the loop that writes into
  an `array` and is proved equal to `Scan`.
- `Command` (`command.dfy`) holds `Dispatch`, which is `do_command` as a
  function of the session `State` and the 128-byte receive buffer, and
  `Iteration`, the `g_verifycnt < 3` guard of the main loop.
- `Session` (`session.dfy`) holds `Loop`, the endless loop of `main` run
  over a finite stream of polls. One receive buffer is reused from line to
  line, and the induction lemmas prove the boot-wide invariants. The
  scenario lemmas follow whole command lines through the loop.
- `Firmware` (`firmware.dfy`) holds the class `Device`. Its fields are the
  receive buffer, the working nonce and the EEPROM block as arrays, plus the
  counter and the flag. `DoCommand`, `Step` and `Run` update them in place,
  and each is proved equal to the functions above.

The model follows the code where it does more or less than a reader of the
protocol would expect:

- Only the first six bytes ("verify") or the first five ("store") of a line
  are compared. The separator is never looked at.
- `verify` compares offsets 7 to 70 of the buffer with `g_nonce`, whatever
  the length of the line. Past the end of a short line those bytes are left
  over from earlier lines, so they are not undefined memory.
- A line of 128 bytes or more is not thrown away. `recv_str` returns when
  the buffer is full, and the rest of the line becomes the next command.
- An empty line stores nothing, so `do_command` answers the previous line
  again. This happens with the LF of a CR LF pair. A wrong `verify` sent
  with CR LF therefore costs two attempts.
- `store` changes only the EEPROM. The working nonce is read once at
  power-up, so the new nonce is used only after the next boot.

## Model

| member | source | states |
|---|---|---|
| Ascii.FactoryNonce | src/main.c:48-56 | The EEPROM image is 64 bytes, all printable. |
| LineReader.Scan | src/main.c:111-127 | One call stores at most `size` bytes and consumes no more polls than there are. A call that returns with room in the buffer has consumed at least one poll. |
| LineReader.ScanCharacterised | src/main.c:116-126 | A call ends in one of three ways. (1) At the first CR or LF, which is not stored; the bytes stored are exactly the printable bytes before it, and fewer than `size`. (2) When a printable byte fills the buffer to `size`, with no line end consumed. (3) Still waiting at the end of the stream. In every case idle polls and non-printable bytes are skipped and not counted. |
| LineReader.ScanStoresPrintable | src/main.c:120-123 | Every stored byte lies in 0x20..0x7E. |
| LineReader.LineRoundTrip | src/main.c:116-126 | A printable line shorter than the buffer, followed by CR or LF, is read back exactly. Reading stops just after the line end. |
| LineReader.LongLineFills | src/main.c:116-126 | A printable line of `size` bytes or more gives its first `size` bytes. Nothing after them is consumed, not even the line end. |
| LineReader.RecvStr | src/main.c:111-127 | The loop returns a count of at most `size`. It writes exactly `Scan`'s bytes to `buf[0..count)`, all printable, and leaves the rest of `buf` as it was. A call that has not returned has consumed the whole stream. |
| Command.Dispatch | src/main.c:135-164 | `Verified` (201) exactly when unverified, the first 6 bytes are "verify" and `buf[7..71)` equals the nonce. `VerificationFailed` (401) exactly when they differ. `NotVerified` (402) for a store while unverified. `InvalidNonce` (403) for a verified store with `n < 70`. `NonceWritten` (202) for a verified store with `n >= 70`. `UnknownCommand` (400) otherwise, including a verify after success. The counter rises by one exactly on 401. The flag rises exactly on 201. The EEPROM becomes `buf[6..70)` exactly on 202. The working nonce never changes. |
| Command.Iteration | src/main.c:91-97 | 404 exactly when the counter is at least 3, and then the state is unchanged. `Secure` is preserved: counter ≤ 3, and verified only with counter < 3. A verified secure session never gets 404. The flag never drops and the working nonce never changes. |
| Command.Boot | src/main.c:63-82 | Power-up clears the flag and the counter and copies the EEPROM into the working nonce. The state it gives is `Secure`. |
| Session.Loop | src/main.c:91-97 | `main`'s endless loop over a finite stream: read a line into the one buffer, answer it through the guard, and repeat. The buffer stays 128 bytes, and an unfinished line at the end of the stream gets no reply. |
| Session.LoopRepliesBounded | src/main.c:91-97 | Each reply answers a line that consumed at least one poll, so there are no more replies than polls. The loop never sends 200. |
| Session.LoopKeepsSecure | src/main.c:91-97 | Across a whole boot the counter stays at or below 3, a verified session has counter below 3, the working nonce is unchanged and the flag never drops. |
| Session.LockoutIsPermanent | src/main.c:93-96 | Once the counter reaches 3, every later line is answered 404. Flag, counter, working nonce and EEPROM stay as they are. |
| Session.FailuresAreCounted | src/main.c:144 | The counter rises by exactly the number of 401 replies sent. |
| Session.AtMostThreeFailures | src/main.c:137-147 | From power-up a boot sends at most three 401 replies. |
| Session.VerifiedAtMostOnce | src/main.c:137-141 | A 201 is sent exactly when the session goes from unverified to verified, so at most once. |
| Session.WritesNeedVerification | src/main.c:149-159 | A boot that ends unverified sent no 202 and left the EEPROM unchanged. |
| Session.StoreOnlyAfterVerify | src/main.c:149-159 | In a boot that starts unverified, every 202 is preceded by a 201. |
| Session.LoopKeepsVerified | src/main.c:139 | Nothing ever clears the flag. |
| Session.LoopLine | src/main.c:91-97 | A whole printable line with its line end is answered as the dispatch guard answers that buffer, and the loop goes on with the rest of the stream. |
| Session.VerifyLine | src/main.c:137-147 | The line `verify <guess>` is answered 400 when already verified, 201 when the guess is the working nonce, and 401 with the counter raised otherwise. |
| Session.StoreLine | src/main.c:149-159 | The line `store <nonce>` writes the nonce to the EEPROM and is answered 202 when verified, and is answered 402 with nothing written otherwise. |
| Session.EmptyLineRepeats | src/main.c:116-119 | An empty line leaves the buffer as the previous line left it, and that line is answered again with a count of 0. |
| Session.OverlongLineContinues | src/main.c:116-126 | A line of 128 bytes or more is answered on its first 128 bytes. The loop reads on from byte 129, so the rest of the line is the next command. |
| Session.BareVerifyUsesStaleBytes | src/main.c:137-141 | The bare word "verify" succeeds when an earlier line left the working nonce at offsets 7 to 70 of the buffer. |
| Session.CrLfCountsTwice | src/main.c:116-119 | A wrong `verify` sent with CR LF is answered 401 twice, because the LF is an empty line that repeats it. |
| Session.ThreeFailuresLockOut | src/main.c:91-97 | Three wrong `verify` lines after power-up get three 401s, then only 404s, and the counter ends at 3. |
| Session.StoreKeepsWorkingNonce | src/main.c:137-159 | Verify, store, verify-with-the-new-nonce in one boot gives 201, 202, 400. The working nonce is still the old one and the EEPROM holds the new one. |
| Session.RebootAdoptsStoredNonce | src/main.c:82 | After power-up on the new EEPROM contents the stored nonce verifies and the replaced one fails. |
| Firmware.FlashEeprom | src/main.c:48-56 | The EEPROM block starts as "42" × 32. |
| Firmware.Device.constructor | src/main.c:63-82 | At power-up the flag and the counter are cleared and the working nonce is a copy of the EEPROM (`Boot`). The receive buffer holds whatever was there. |
| Firmware.Device.DoCommand | src/main.c:135-164 | The in-place dispatcher leaves exactly the reply and globals of `Dispatch`. The working nonce and the buffer are outside its frame. |
| Firmware.Device.Step | src/main.c:91-97 | One pass of the loop consumes exactly the polls `recv_str` reads (`Scan`). It leaves the buffer with the line written over its front. When the line is complete, the reply and the new globals are those of the guarded dispatch (`Iteration`) on that buffer. When the stream runs out first, there is no reply and the globals are unchanged. So the pass sends the first reply of `Loop`, and `Loop` over the rest of the stream continues from the new globals and buffer. |
| Firmware.Device.Run | src/main.c:89-97 | The replies are 200 followed by `Loop`'s replies, and the final globals and buffer are `Loop`'s. If `Secure` held at the start, it holds at the end. |

## Left out

- USB bring-up and the waits for configuration and DTR (`usb_init`,
  `usb_configured`, `usb_serial_get_control`, `usb_serial_flush_input`) are
  foreign calls and spins. The model starts at the welcome line, with input
  as a given sequence of polls.
- The endless loop is run over a finite stream. When the stream ends in
  the middle of a line the model stops, where the device would keep waiting.
- `send_str`, `pgm_read_byte` and the `PSTR` strings are output plumbing.
  A reply is the `Reply` datatype, and `Command.Text` gives its exact line.
- The LED, `BLINK`, `_delay_ms` and `CPU_PRESCALE` are hardware side effects
  with no bearing on the state.
- `eeprom_read_block` and `eeprom_write_block` are array copies. Their
  timing, atomicity and durability are not modelled.
- The timing of `memcmp` (not constant-time) is a side channel and is not
  functional behaviour.
- The initial contents of the receive buffer (uninitialised stack) are a
  parameter of the `Device` constructor.
- `g_verifycnt` and `count` are `uint8_t`; the model uses unbounded
  integers. No wrap-around can occur: the counter is proved to stay at or
  below 3 and the count at or below 128.
