/** The firmware's globals and `main`, in place: the receive buffer, the
    working nonce and the EEPROM block are arrays, the flag and the counter
    are fields, and `do_command` and the main loop update them. */
module Firmware {
  import opened Ascii
  import opened LineReader
  import opened Command
  import opened Session

  datatype Option<T> = None | Some(value: T)

  /** The EEPROM block `g_ee_nonce` as it is flashed. It belongs to no boot:
      one array is handed to every `Device` that is powered up on it. */
  method FlashEeprom() returns (ee: array<byte>)
    ensures fresh(ee) && ee[..] == FactoryNonce()
  {
    ee := new byte[NonceSize](i requires 0 <= i < NonceSize => FactoryNonce()[i]);
  }

  /** One boot of the device. */
  class Device {
    /** `buf` in `main`: one receive buffer reused for every line. */
    const buf: array<byte>
    /** `g_nonce`: the working nonce, read from the EEPROM at power-up. */
    const nonce: array<byte>
    /** `g_ee_nonce`: the persisted nonce. */
    const ee: array<byte>
    /** `g_verifycnt` */
    var verifyCount: nat
    /** `g_verified` */
    var verified: bool

    ghost predicate Valid()
      reads this
    {
      && buf.Length == BufSize && nonce.Length == NonceSize && ee.Length == NonceSize
      && buf != nonce && buf != ee && nonce != ee
    }

    /** The globals as a value. */
    ghost function Globals(): State
      reads this, nonce, ee
    {
      State(nonce[..], verifyCount, verified, ee[..])
    }

    /** Power-up: the static globals start cleared, the receive buffer holds
        whatever was on the stack (`stale`), and `eeprom_read_block` copies
        the EEPROM into the working nonce. */
    constructor (ee: array<byte>, stale: seq<byte>)
      requires ee.Length == NonceSize && |stale| == BufSize
      ensures Valid() && this.ee == ee && fresh(buf) && fresh(nonce)
      ensures Globals() == Boot(ee[..]) && buf[..] == stale
    {
      this.ee := ee;
      buf := new byte[BufSize](i requires 0 <= i < BufSize => stale[i]);
      var copy := new byte[NonceSize];
      forall i | 0 <= i < NonceSize {
        copy[i] := ee[i];
      }
      nonce := copy;
      verifyCount, verified := 0, false;
    }

    /** `do_command(buf, n)`: answers the line in `buf`. Only the flag, the
        counter and the EEPROM may change; the working nonce and the buffer
        are outside the frame. */
    method DoCommand(n: nat) returns (reply: Reply)
      requires Valid()
      modifies this, ee
      ensures Valid()
      ensures (reply, Globals()) == Dispatch(old(Globals()), buf[..], n)
    {
      assert IsVerify(buf[..]) == (buf[..6] == VerifyKeyword) && IsStore(buf[..]) == (buf[..5] == StoreKeyword);
      assert VerifyOperand(buf[..]) == buf[7..7 + NonceSize];
      if buf[..6] == VerifyKeyword && !verified {
        if buf[7..7 + NonceSize] == nonce[..] {
          verified := true;
          reply := Verified;
        } else {
          verifyCount := verifyCount + 1;
          reply := VerificationFailed;
        }
      } else if buf[..5] == StoreKeyword {
        if !verified {
          reply := NotVerified;
        } else if n < 6 + NonceSize {
          reply := InvalidNonce;
        } else {
          // The EEPROM write: the 64 bytes from offset 6 of the buffer.
          forall i | 0 <= i < NonceSize {
            ee[i] := buf[6 + i];
          }
          assert ee[..] == StoreOperand(buf[..]);
          assert nonce[..] == old(nonce[..]);
          reply := NonceWritten;
        }
      } else {
        reply := UnknownCommand;
      }
    }

    /** One pass of `main`'s loop: read a line into `buf`, then answer it,
        or refuse it once three verifications have failed. `None` when the
        input runs out before the line is finished. */
    method Step(input: seq<Rx>) returns (reply: Option<Reply>, used: nat)
      requires Valid()
      modifies this, buf, ee
      ensures Valid()
      ensures used <= |input| && (reply.Some? ==> used > 0) && (reply.None? ==> used == |input|)
      ensures reply.Some? ==>
        Loop(old(Globals()), old(buf[..]), input) == Prepend(reply.value, Loop(Globals(), buf[..], input[used..]))
      ensures reply.None? ==> Loop(old(Globals()), old(buf[..]), input) == Trace([], Globals(), buf[..])
      // The pass itself: `recv_str` over the input, then the guarded dispatch.
      ensures var r := Scan(input, BufSize);
        var b := Overwrite(old(buf[..]), r.bytes);
        && used == r.used && buf[..] == b
        && (r.complete ==> reply == Some(Iteration(old(Globals()), b, |r.bytes|).0)
                           && Globals() == Iteration(old(Globals()), b, |r.bytes|).1)
        && (!r.complete ==> reply.None? && Globals() == old(Globals()))
    {
      ghost var g, b := Globals(), buf[..];
      var n, complete;
      n, used, complete := RecvStr(buf, BufSize, input);
      ghost var b' := buf[..];
      assert b' == Overwrite(b, b'[..n]) by {
        assert b' == b'[..n] + b'[n..];
      }
      if complete {
        var answer;
        if verifyCount < MaxTries {
          answer := DoCommand(n);
        } else {
          answer := TriesExceeded;
        }
        assert buf[..] == b';
        LoopStep(g, b, input, b', n, used, answer, Globals());
        reply := Some(answer);
      } else {
        LoopWaits(g, b, input, b', n);
        LoopEmpty(g, b');
        assert Globals() == g;
        reply := None;
      }
    }

    /** `main` after power-up: the welcome line, then read a line and answer
        it, for as long as `input` lasts. The working nonce is outside the
        frame, so no line can change it. */
    method Run(input: seq<Rx>) returns (replies: seq<Reply>)
      requires Valid()
      modifies this, buf, ee
      ensures Valid()
      ensures var t := Loop(old(Globals()), old(buf[..]), input);
        replies == [Welcome] + t.replies && Globals() == t.state && buf[..] == t.buf
      ensures Secure(old(Globals())) ==> Secure(Globals())
    {
      replies := [Welcome];
      var pos := 0;
      ghost var whole := Loop(Globals(), buf[..], input);
      ghost var sent: seq<Reply> := [];
      while pos < |input|
        invariant Valid() && pos <= |input|
        invariant replies == [Welcome] + sent
        invariant whole == Then(sent, Loop(Globals(), buf[..], input[pos..]))
        decreases |input| - pos
      {
        ghost var rest := Loop(Globals(), buf[..], input[pos..]);
        var reply, used := Step(input[pos..]);
        assert input[pos..][used..] == input[pos + used..];
        pos := pos + used;
        if reply.Some? {
          ThenPrepend(sent, reply.value, Loop(Globals(), buf[..], input[pos..]));
          sent := sent + [reply.value];
          replies := replies + [reply.value];
        } else {
          assert input[pos..] == [];
          LoopEmpty(Globals(), buf[..]);
          assert Then(sent, rest) == Then(sent, Loop(Globals(), buf[..], input[pos..]));
        }
      }
      assert input[pos..] == [];
      LoopEmpty(Globals(), buf[..]);
      if Secure(old(Globals())) {
        LoopKeepsSecure(old(Globals()), old(buf[..]), input);
      }
    }
  }
}
