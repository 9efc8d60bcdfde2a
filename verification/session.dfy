/** The endless loop of `main` run over a finite stretch of serial input:
    read a line into the one 128-byte buffer, then answer it. */
module Session {
  import opened Ascii
  import opened LineReader
  import opened Command

  /** The replies sent, the state reached and the buffer left behind. */
  datatype Trace = Trace(replies: seq<Reply>, state: State, buf: seq<byte>)

  function Prepend(reply: Reply, t: Trace): (t': Trace) {
    t.(replies := [reply] + t.replies)
  }

  /** Replies sent before those of `t`. */
  function Then(replies: seq<Reply>, t: Trace): (t': Trace) {
    t.(replies := replies + t.replies)
  }

  lemma ThenPrepend(replies: seq<Reply>, reply: Reply, t: Trace)
    ensures Then(replies, Prepend(reply, t)) == Then(replies + [reply], t)
  {
    assert replies + ([reply] + t.replies) == (replies + [reply]) + t.replies;
  }

  /** `recv_str` writing `bytes` over the front of the buffer. */
  function Overwrite(buf: seq<byte>, bytes: seq<byte>): (r: seq<byte>)
    requires |bytes| <= |buf|
    ensures |r| == |buf|
  {
    bytes + buf[|bytes|..]
  }

  /** Runs the loop until the input runs out. A line that is still unfinished
      at the end leaves its bytes in the buffer but gets no answer (the device
      would go on waiting). */
  function Loop(s: State, buf: seq<byte>, input: seq<Rx>): (t: Trace)
    requires |buf| == BufSize
    ensures |t.buf| == BufSize
    decreases |input|
  {
    var r := Scan(input, BufSize);
    var buf' := Overwrite(buf, r.bytes);
    if !r.complete then Trace([], s, buf')
    else
      var (reply, s') := Iteration(s, buf', |r.bytes|);
      Prepend(reply, Loop(s', buf', input[r.used..]))
  }

  /** One pass of the loop, from what `recv_str` returned and what the line
      was answered. */
  lemma LoopStep(s: State, buf: seq<byte>, input: seq<Rx>, buf': seq<byte>, n: nat, used: nat, reply: Reply, s': State)
    requires |buf| == BufSize && |buf'| == BufSize && n <= BufSize
    requires Scan(input, BufSize) == Recv(buf'[..n], used, true)
    requires buf' == Overwrite(buf, buf'[..n])
    requires (reply, s') == Iteration(s, buf', n)
    ensures Loop(s, buf, input) == Prepend(reply, Loop(s', buf', input[used..]))
  {
  }

  /** The loop waiting for the rest of an unfinished line. */
  lemma LoopWaits(s: State, buf: seq<byte>, input: seq<Rx>, buf': seq<byte>, n: nat)
    requires |buf| == BufSize && |buf'| == BufSize && n <= BufSize
    requires Scan(input, BufSize) == Recv(buf'[..n], |input|, false)
    requires buf' == Overwrite(buf, buf'[..n])
    ensures Loop(s, buf, input) == Loop(s, buf', [])
  {
    assert Overwrite(buf', []) == buf';
  }

  /** With no input left the loop sends nothing and changes nothing. */
  lemma LoopEmpty(s: State, buf: seq<byte>)
    requires |buf| == BufSize
    ensures Loop(s, buf, []) == Trace([], s, buf)
  {
    assert Overwrite(buf, []) == buf;
  }

  /** The security invariant holds for the whole boot: the counter stays at or
      below three, a verified session was verified before the third failure,
      the working nonce never changes and the flag is never cleared. */
  lemma {:induction false} LoopKeepsSecure(s: State, buf: seq<byte>, input: seq<Rx>)
    requires |buf| == BufSize && Secure(s)
    ensures var t := Loop(s, buf, input);
      Secure(t.state) && t.state.nonce == s.nonce && (s.verified ==> t.state.verified)
    decreases |input|
  {
    var r := Scan(input, BufSize);
    if r.complete {
      var buf' := Overwrite(buf, r.bytes);
      LoopKeepsSecure(Iteration(s, buf', |r.bytes|).1, buf', input[r.used..]);
    }
  }

  /** Once three verifications have failed, every further line is answered
      404 and nothing but the buffer changes again. */
  lemma {:induction false} LockoutIsPermanent(s: State, buf: seq<byte>, input: seq<Rx>)
    requires |buf| == BufSize && s.verifyCount >= MaxTries
    ensures var t := Loop(s, buf, input);
      t.state == s && forall i :: 0 <= i < |t.replies| ==> t.replies[i] == TriesExceeded
    decreases |input|
  {
    var r := Scan(input, BufSize);
    if r.complete {
      LockoutIsPermanent(s, Overwrite(buf, r.bytes), input[r.used..]);
    }
  }

  /** The counter rises by exactly the number of 401 replies sent. */
  lemma {:induction false} FailuresAreCounted(s: State, buf: seq<byte>, input: seq<Rx>)
    requires |buf| == BufSize
    ensures var t := Loop(s, buf, input);
      t.state.verifyCount == s.verifyCount + multiset(t.replies)[VerificationFailed]
    decreases |input|
  {
    var r := Scan(input, BufSize);
    if r.complete {
      var buf' := Overwrite(buf, r.bytes);
      var (reply, s') := Iteration(s, buf', |r.bytes|);
      FailuresAreCounted(s', buf', input[r.used..]);
      assert multiset([reply] + Loop(s', buf', input[r.used..]).replies)
          == multiset([reply]) + multiset(Loop(s', buf', input[r.used..]).replies);
    }
  }

  /** From power-up, no boot sends more than three 401 replies. */
  lemma AtMostThreeFailures(ee: seq<byte>, buf: seq<byte>, input: seq<Rx>)
    requires |buf| == BufSize
    ensures multiset(Loop(Boot(ee), buf, input).replies)[VerificationFailed] <= MaxTries
  {
    FailuresAreCounted(Boot(ee), buf, input);
    LoopKeepsSecure(Boot(ee), buf, input);
  }

  /** A 201 is sent exactly when the session goes from unverified to verified,
      so at most once per boot. */
  lemma {:induction false} VerifiedAtMostOnce(s: State, buf: seq<byte>, input: seq<Rx>)
    requires |buf| == BufSize
    ensures var t := Loop(s, buf, input);
      multiset(t.replies)[Verified] == (if !s.verified && t.state.verified then 1 else 0)
    decreases |input|
  {
    var r := Scan(input, BufSize);
    if r.complete {
      var buf' := Overwrite(buf, r.bytes);
      var (reply, s') := Iteration(s, buf', |r.bytes|);
      var t := Loop(s', buf', input[r.used..]);
      VerifiedAtMostOnce(s', buf', input[r.used..]);
      if s'.verified {
        LoopKeepsVerified(s', buf', input[r.used..]);
      }
      assert multiset([reply] + t.replies) == multiset([reply]) + multiset(t.replies);
    }
  }

  /** While the session is not verified the EEPROM is never written: a boot
      that ends unverified sent no 202 and left the EEPROM as it found it. */
  lemma {:induction false} WritesNeedVerification(s: State, buf: seq<byte>, input: seq<Rx>)
    requires |buf| == BufSize
    ensures var t := Loop(s, buf, input);
      !t.state.verified ==> t.state.eeNonce == s.eeNonce && NonceWritten !in t.replies
    decreases |input|
  {
    var r := Scan(input, BufSize);
    if r.complete {
      var buf' := Overwrite(buf, r.bytes);
      var (reply, s') := Iteration(s, buf', |r.bytes|);
      WritesNeedVerification(s', buf', input[r.used..]);
      if s'.verified {
        LoopKeepsVerified(s', buf', input[r.used..]);
      }
    }
  }

  /** Every answered line consumed at least one poll, and the welcome line
      is never sent from within the loop. */
  lemma {:induction false} LoopRepliesBounded(s: State, buf: seq<byte>, input: seq<Rx>)
    requires |buf| == BufSize
    ensures var t := Loop(s, buf, input);
      |t.replies| <= |input| && Welcome !in t.replies
    decreases |input|
  {
    var r := Scan(input, BufSize);
    if r.complete {
      var buf' := Overwrite(buf, r.bytes);
      LoopRepliesBounded(Iteration(s, buf', |r.bytes|).1, buf', input[r.used..]);
    }
  }

  /** Every 202 in `replies` comes after a 201. */
  predicate WritesAfterVerify(replies: seq<Reply>) {
    forall i :: 0 <= i < |replies| && replies[i] == NonceWritten ==> Verified in replies[..i]
  }

  /** A reply in front of the rest keeps the gate when it is not a 202 and
      either is the 201 itself or the rest already keeps the gate. */
  lemma GateStep(reply: Reply, rest: seq<Reply>)
    requires reply != NonceWritten && (reply == Verified || WritesAfterVerify(rest))
    ensures WritesAfterVerify([reply] + rest)
  {
    var replies := [reply] + rest;
    forall i | 1 <= i < |replies| && replies[i] == NonceWritten
      ensures Verified in replies[..i]
    {
      assert replies[..i][0] == reply;
      if reply != Verified {
        var k := i - 1;
        assert rest[k] == NonceWritten;
        assert Verified in rest[..k];
        assert replies[..i] == [reply] + rest[..k];
      }
    }
  }

  /** The write gate over a whole boot: in a boot that starts unverified,
      every 202 comes after a 201. */
  lemma {:induction false} StoreOnlyAfterVerify(s: State, buf: seq<byte>, input: seq<Rx>)
    requires |buf| == BufSize && !s.verified
    ensures WritesAfterVerify(Loop(s, buf, input).replies)
    decreases |input|
  {
    var r := Scan(input, BufSize);
    if r.complete {
      var buf' := Overwrite(buf, r.bytes);
      var (reply, s') := Iteration(s, buf', |r.bytes|);
      var rest := Loop(s', buf', input[r.used..]).replies;
      assert reply != NonceWritten;
      if reply != Verified {
        assert !s'.verified by {
          if s.verifyCount < MaxTries { assert (reply, s') == Dispatch(s, buf', |r.bytes|); }
        }
        StoreOnlyAfterVerify(s', buf', input[r.used..]);
      }
      GateStep(reply, rest);
    }
  }

  /** The flag is never cleared. */
  lemma {:induction false} LoopKeepsVerified(s: State, buf: seq<byte>, input: seq<Rx>)
    requires |buf| == BufSize && s.verified
    ensures Loop(s, buf, input).state.verified
    decreases |input|
  {
    var r := Scan(input, BufSize);
    if r.complete {
      var buf' := Overwrite(buf, r.bytes);
      LoopKeepsVerified(Iteration(s, buf', |r.bytes|).1, buf', input[r.used..]);
    }
  }

  /** Sending one whole printable line, shorter than the buffer, with its line
      end: the line is answered as `main` answers it, and the loop carries on
      with the rest of the input. */
  lemma LoopLine(s: State, buf: seq<byte>, line: seq<byte>, end: byte, rest: seq<Rx>)
    requires |buf| == BufSize && AllPrintable(line) && IsLineEnd(end) && |line| < BufSize
    ensures var buf' := Overwrite(buf, line);
      var (reply, s') := Iteration(s, buf', |line|);
      var t := Loop(s', buf', rest);
      Loop(s, buf, Send(line) + [Got(end)] + rest) == Prepend(reply, t)
  {
    var input := Send(line) + [Got(end)] + rest;
    LineRoundTrip(line, end, rest, BufSize);
    assert input[|line| + 1..] == rest;
  }

  /** What `main` answers to the line "verify " followed by `guess`. */
  function VerifyOutcome(s: State, guess: seq<byte>): (out: (Reply, State)) {
    if s.verified then (UnknownCommand, s)
    else if guess == s.nonce then (Verified, s.(verified := true))
    else (VerificationFailed, s.(verifyCount := s.verifyCount + 1))
  }

  /** A buffer that starts with "verify " and `guess` is answered by
      VerifyOutcome, whatever count `recv_str` returned for it. */
  lemma VerifyLineAnswer(s: State, buf: seq<byte>, guess: seq<byte>, n: nat)
    requires |buf| == BufSize && |guess| == NonceSize && s.verifyCount < MaxTries
    ensures Iteration(s, Overwrite(buf, VerifyKeyword + [Space] + guess), n) == VerifyOutcome(s, guess)
  {
    var buf' := Overwrite(buf, VerifyKeyword + [Space] + guess);
    assert buf'[..6] == VerifyKeyword && VerifyOperand(buf') == guess;
    assert buf'[..5] != StoreKeyword by { assert buf'[..5][0] == buf'[..6][0]; }
  }

  /** The reply and state change of one whole `verify` line. */
  lemma VerifyLine(s: State, buf: seq<byte>, guess: seq<byte>, rest: seq<Rx>)
    requires |buf| == BufSize && |guess| == NonceSize && AllPrintable(guess) && s.verifyCount < MaxTries
    ensures var (reply, s') := VerifyOutcome(s, guess);
      Loop(s, buf, Send(VerifyKeyword + [Space] + guess) + [Got(CR)] + rest)
        == Prepend(reply, Loop(s', Overwrite(buf, VerifyKeyword + [Space] + guess), rest))
  {
    var line := VerifyKeyword + [Space] + guess;
    assert AllPrintable(line);
    VerifyLineAnswer(s, buf, guess, |line|);
    LoopLine(s, buf, line, CR, rest);
  }

  /** The reply and state change of one whole `store` line. */
  lemma StoreLine(s: State, buf: seq<byte>, next: seq<byte>, rest: seq<Rx>)
    requires |buf| == BufSize && |next| == NonceSize && AllPrintable(next) && s.verifyCount < MaxTries
    ensures var buf' := Overwrite(buf, StoreKeyword + [Space] + next);
      var (reply, s') :=
        if s.verified then (NonceWritten, s.(eeNonce := next)) else (NotVerified, s);
      Loop(s, buf, Send(StoreKeyword + [Space] + next) + [Got(CR)] + rest)
        == Prepend(reply, Loop(s', buf', rest))
  {
    var line := StoreKeyword + [Space] + next;
    var buf' := Overwrite(buf, line);
    assert buf'[..5] == StoreKeyword && StoreOperand(buf') == next;
    LoopLine(s, buf, line, CR, rest);
  }

  /** An empty line stores nothing, so `do_command` sees the buffer as the
      previous line left it and answers that line again, with a count of 0. */
  lemma EmptyLineRepeats(s: State, buf: seq<byte>, end: byte, rest: seq<Rx>)
    requires |buf| == BufSize && IsLineEnd(end)
    ensures var (reply, s') := Iteration(s, buf, 0);
      Loop(s, buf, [Got(end)] + rest) == Prepend(reply, Loop(s', buf, rest))
  {
    assert Overwrite(buf, []) == buf;
    assert ([Got(end)] + rest)[1..] == rest;
  }

  /** A line of 128 or more bytes is not thrown away: the first 128 are
      answered as one line, and the loop reads on from byte 129, so the rest
      of the line is taken as the next command. */
  lemma OverlongLineContinues(s: State, buf: seq<byte>, line: seq<byte>, rest: seq<Rx>)
    requires |buf| == BufSize && AllPrintable(line) && |line| >= BufSize
    ensures var (reply, s') := Iteration(s, line[..BufSize], BufSize);
      Loop(s, buf, Send(line) + rest)
        == Prepend(reply, Loop(s', line[..BufSize], Send(line[BufSize..]) + rest))
  {
    LongLineFills(line, rest, BufSize);
    assert (Send(line) + rest)[BufSize..] == Send(line[BufSize..]) + rest;
    assert Overwrite(buf, line[..BufSize]) == line[..BufSize];
  }

  /** The nonce a `verify` is checked against is whatever sits at offsets
      7 to 70 of the buffer, so the bare word "verify" succeeds when an
      earlier line left the right nonce there. */
  lemma BareVerifyUsesStaleBytes(s: State, buf: seq<byte>, end: byte, rest: seq<Rx>)
    requires |buf| == BufSize && IsLineEnd(end) && VerifyOperand(buf) == s.nonce
    requires !s.verified && s.verifyCount < MaxTries
    ensures Loop(s, buf, Send(VerifyKeyword) + [Got(end)] + rest)
      == Prepend(Verified, Loop(s.(verified := true), Overwrite(buf, VerifyKeyword), rest))
  {
    var buf' := Overwrite(buf, VerifyKeyword);
    assert AllPrintable(VerifyKeyword);
    assert buf'[..6] == VerifyKeyword && VerifyOperand(buf') == VerifyOperand(buf);
    LoopLine(s, buf, VerifyKeyword, end, rest);
  }

  /** A `verify` line with a wrong nonce, before the session is verified
      and while attempts are left, is answered 401 and counted. */
  lemma WrongVerifyLine(s: State, buf: seq<byte>, guess: seq<byte>, rest: seq<Rx>)
    requires |buf| == BufSize && |guess| == NonceSize && AllPrintable(guess)
    requires !s.verified && s.verifyCount < MaxTries && guess != s.nonce
    ensures Loop(s, buf, Send(VerifyKeyword + [Space] + guess) + [Got(CR)] + rest)
      == Prepend(VerificationFailed,
                 Loop(s.(verifyCount := s.verifyCount + 1), Overwrite(buf, VerifyKeyword + [Space] + guess), rest))
  {
    var line := VerifyKeyword + [Space] + guess;
    assert AllPrintable(line);
    assert Iteration(s, Overwrite(buf, line), |line|) == (VerificationFailed, s.(verifyCount := s.verifyCount + 1)) by {
      VerifyLineAnswer(s, buf, guess, |line|);
    }
    LoopLine(s, buf, line, CR, rest);
  }

  /** A `verify` line with the working nonce, before the session is
      verified and while attempts are left, is answered 201 and verifies it. */
  lemma RightVerifyLine(s: State, buf: seq<byte>, rest: seq<Rx>)
    requires |buf| == BufSize && |s.nonce| == NonceSize && AllPrintable(s.nonce)
    requires !s.verified && s.verifyCount < MaxTries
    ensures Loop(s, buf, Send(VerifyKeyword + [Space] + s.nonce) + [Got(CR)] + rest)
      == Prepend(Verified, Loop(s.(verified := true), Overwrite(buf, VerifyKeyword + [Space] + s.nonce), rest))
  {
    var line := VerifyKeyword + [Space] + s.nonce;
    assert AllPrintable(line);
    assert Iteration(s, Overwrite(buf, line), |line|) == (Verified, s.(verified := true)) by {
      VerifyLineAnswer(s, buf, s.nonce, |line|);
    }
    LoopLine(s, buf, line, CR, rest);
  }

  /** An empty line after a wrong `verify` is answered 401 once more and
      counted once more. */
  lemma WrongVerifyRepeated(s: State, buf: seq<byte>, guess: seq<byte>, end: byte, rest: seq<Rx>)
    requires |buf| == BufSize && |guess| == NonceSize && IsLineEnd(end)
    requires !s.verified && s.verifyCount < MaxTries && guess != s.nonce
    ensures var buf' := Overwrite(buf, VerifyKeyword + [Space] + guess);
      Loop(s, buf', [Got(end)] + rest)
        == Prepend(VerificationFailed, Loop(s.(verifyCount := s.verifyCount + 1), buf', rest))
  {
    var buf' := Overwrite(buf, VerifyKeyword + [Space] + guess);
    var s' := s.(verifyCount := s.verifyCount + 1);
    assert Iteration(s, buf', 0) == (VerificationFailed, s') by {
      VerifyLineAnswer(s, buf, guess, 0);
    }
    EmptyLineRepeats(s, buf', end, rest);
  }

  /** A `verify` sent with CR LF and a wrong nonce costs two attempts: the LF
      is an empty line, which answers the `verify` left in the buffer again. */
  lemma CrLfCountsTwice(s: State, buf: seq<byte>, guess: seq<byte>, rest: seq<Rx>)
    requires |buf| == BufSize && |guess| == NonceSize && AllPrintable(guess)
    requires !s.verified && s.verifyCount + 2 <= MaxTries && guess != s.nonce
    ensures var t := Loop(s, buf, Send(VerifyKeyword + [Space] + guess) + [Got(CR), Got(LF)] + rest);
      |t.replies| >= 2 && t.replies[..2] == [VerificationFailed, VerificationFailed]
  {
    var line := VerifyKeyword + [Space] + guess;
    var input := Send(line) + [Got(CR), Got(LF)] + rest;
    assert input == Send(line) + [Got(CR)] + ([Got(LF)] + rest);
    var s' := s.(verifyCount := s.verifyCount + 1);
    var buf' := Overwrite(buf, line);
    var tail := Loop(s'.(verifyCount := s'.verifyCount + 1), buf', rest);
    WrongVerifyRepeated(s', buf, guess, LF, rest);
    WrongVerifyLine(s, buf, guess, [Got(LF)] + rest);
    assert Loop(s, buf, input).replies == [VerificationFailed] + ([VerificationFailed] + tail.replies);
  }

  /** `k` replies of 401, then only 404s, ending in state `last`. */
  predicate FailedThenLocked(t: Trace, k: nat, last: State) {
    && |t.replies| >= k
    && (forall i :: 0 <= i < k ==> t.replies[i] == VerificationFailed)
    && (forall i :: k <= i < |t.replies| ==> t.replies[i] == TriesExceeded)
    && t.state == last
  }

  lemma FailedOnceMore(t: Trace, k: nat, last: State)
    requires FailedThenLocked(t, k, last)
    ensures FailedThenLocked(Prepend(VerificationFailed, t), k + 1, last)
  {
    var r := Prepend(VerificationFailed, t).replies;
    forall i | 1 <= i < |r| ensures r[i] == t.replies[i - 1] {}
  }

  /** The third wrong `verify` is answered 401, and every line after it 404. */
  lemma ThirdFailure(s: State, buf: seq<byte>, g: seq<byte>, rest: seq<Rx>)
    requires |buf| == BufSize && |g| == NonceSize && AllPrintable(g)
    requires !s.verified && s.verifyCount == 2 && g != s.nonce
    ensures FailedThenLocked(Loop(s, buf, Send(VerifyKeyword + [Space] + g) + [Got(CR)] + rest), 1, s.(verifyCount := MaxTries))
  {
    var s' := s.(verifyCount := MaxTries);
    var b := Overwrite(buf, VerifyKeyword + [Space] + g);
    LockoutIsPermanent(s', b, rest);
    assert FailedThenLocked(Loop(s', b, rest), 0, s');
    FailedOnceMore(Loop(s', b, rest), 0, s');
    WrongVerifyLine(s, buf, g, rest);
  }

  /** The second and third wrong `verify`. */
  lemma SecondFailure(s: State, buf: seq<byte>, g2: seq<byte>, g3: seq<byte>, rest: seq<Rx>)
    requires |buf| == BufSize && |g2| == |g3| == NonceSize && AllPrintable(g2) && AllPrintable(g3)
    requires !s.verified && s.verifyCount == 1 && g2 != s.nonce && g3 != s.nonce
    ensures FailedThenLocked(Loop(s, buf, Send(VerifyKeyword + [Space] + g2) + [Got(CR)] +
                                          (Send(VerifyKeyword + [Space] + g3) + [Got(CR)] + rest)), 2, s.(verifyCount := MaxTries))
  {
    var s' := s.(verifyCount := 2);
    var b := Overwrite(buf, VerifyKeyword + [Space] + g2);
    var in3 := Send(VerifyKeyword + [Space] + g3) + [Got(CR)] + rest;
    ThirdFailure(s', b, g3, rest);
    FailedOnceMore(Loop(s', b, in3), 1, s.(verifyCount := MaxTries));
    WrongVerifyLine(s, buf, g2, in3);
  }

  /** Three wrong `verify` lines from a fresh counter. */
  lemma FirstFailure(s: State, buf: seq<byte>, g1: seq<byte>, g2: seq<byte>, g3: seq<byte>, rest: seq<Rx>)
    requires |buf| == BufSize
    requires |g1| == |g2| == |g3| == NonceSize && AllPrintable(g1) && AllPrintable(g2) && AllPrintable(g3)
    requires !s.verified && s.verifyCount == 0 && g1 != s.nonce && g2 != s.nonce && g3 != s.nonce
    ensures FailedThenLocked(Loop(s, buf,
                                  Send(VerifyKeyword + [Space] + g1) + [Got(CR)] +
                                  (Send(VerifyKeyword + [Space] + g2) + [Got(CR)] +
                                  (Send(VerifyKeyword + [Space] + g3) + [Got(CR)] + rest))),
                             3, s.(verifyCount := MaxTries))
  {
    var in2 := Send(VerifyKeyword + [Space] + g2) + [Got(CR)] + (Send(VerifyKeyword + [Space] + g3) + [Got(CR)] + rest);
    var s1 := s.(verifyCount := s.verifyCount + 1);
    var b1 := Overwrite(buf, VerifyKeyword + [Space] + g1);
    var last := s.(verifyCount := MaxTries);
    var t1 := Loop(s1, b1, in2);
    assert FailedThenLocked(Prepend(VerificationFailed, t1), 3, last) by {
      SecondFailure(s1, b1, g2, g3, rest);
      assert s1.(verifyCount := MaxTries) == last;
      FailedOnceMore(t1, 2, last);
    }
    assert Loop(s, buf, Send(VerifyKeyword + [Space] + g1) + [Got(CR)] + in2) == Prepend(VerificationFailed, t1) by {
      WrongVerifyLine(s, buf, g1, in2);
    }
  }

  /** The three failures of a boot, then lockout: three `verify` lines with a
      wrong nonce are each answered 401, and every line after them 404. */
  lemma ThreeFailuresLockOut(ee: seq<byte>, buf: seq<byte>, g1: seq<byte>, g2: seq<byte>, g3: seq<byte>, rest: seq<Rx>)
    requires |buf| == BufSize
    requires |g1| == |g2| == |g3| == NonceSize && AllPrintable(g1) && AllPrintable(g2) && AllPrintable(g3)
    requires g1 != ee && g2 != ee && g3 != ee
    ensures var t := Loop(Boot(ee), buf,
                          Send(VerifyKeyword + [Space] + g1) + [Got(CR)] +
                          (Send(VerifyKeyword + [Space] + g2) + [Got(CR)] +
                          (Send(VerifyKeyword + [Space] + g3) + [Got(CR)] + rest)));
      |t.replies| >= 3 && t.replies[..3] == [VerificationFailed, VerificationFailed, VerificationFailed] &&
      (forall i :: 3 <= i < |t.replies| ==> t.replies[i] == TriesExceeded) &&
      t.state == Boot(ee).(verifyCount := MaxTries)
  {
    FirstFailure(Boot(ee), buf, g1, g2, g3, rest);
    var t := Loop(Boot(ee), buf,
                  Send(VerifyKeyword + [Space] + g1) + [Got(CR)] +
                  (Send(VerifyKeyword + [Space] + g2) + [Got(CR)] +
                  (Send(VerifyKeyword + [Space] + g3) + [Got(CR)] + rest)));
    assert t.replies[..3] == [t.replies[0], t.replies[1], t.replies[2]];
  }

  /** Replacing the nonce within one boot: the boot verifies with the stored
      nonce (201) and stores a new one (202); a further `verify`, even with
      the new nonce, is not recognised (400), because the session is already
      verified and the working nonce is still the old one. */
  lemma StoreKeepsWorkingNonce(ee: seq<byte>, buf: seq<byte>, next: seq<byte>)
    requires |buf| == BufSize && |ee| == NonceSize && AllPrintable(ee)
    requires |next| == NonceSize && AllPrintable(next)
    ensures var t := Loop(Boot(ee), buf,
                          Send(VerifyKeyword + [Space] + ee) + [Got(CR)] +
                          (Send(StoreKeyword + [Space] + next) + [Got(CR)] +
                          (Send(VerifyKeyword + [Space] + next) + [Got(CR)])));
      && t.replies == [Verified, NonceWritten, UnknownCommand]
      && t.state == State(ee, 0, true, next)
  {
    var in3 := Send(VerifyKeyword + [Space] + next) + [Got(CR)];
    var in2 := Send(StoreKeyword + [Space] + next) + [Got(CR)] + in3;
    var in1 := Send(VerifyKeyword + [Space] + ee) + [Got(CR)] + in2;
    var b1 := Overwrite(buf, VerifyKeyword + [Space] + ee);
    var b2 := Overwrite(b1, StoreKeyword + [Space] + next);
    var b3 := Overwrite(b2, VerifyKeyword + [Space] + next);
    var s0 := Boot(ee);
    var s1 := s0.(verified := true);
    var s2 := s1.(eeNonce := next);
    var t3 := Loop(s2, b3, []);
    assert t3 == Trace([], s2, b3);
    assert Loop(s2, b2, in3) == Prepend(UnknownCommand, t3) by {
      assert VerifyOutcome(s2, next) == (UnknownCommand, s2);
      assert in3 == Send(VerifyKeyword + [Space] + next) + [Got(CR)] + [];
      VerifyLine(s2, b2, next, []);
    }
    assert Loop(s1, b1, in2) == Prepend(NonceWritten, Prepend(UnknownCommand, t3)) by {
      StoreLine(s1, b1, next, in3);
    }
    assert Loop(s0, buf, in1) == Prepend(Verified, Prepend(NonceWritten, Prepend(UnknownCommand, t3))) by {
      assert VerifyOutcome(s0, ee) == (Verified, s1);
      VerifyLine(s0, buf, ee, in2);
    }
    assert [Verified] + ([NonceWritten] + ([UnknownCommand] + [])) == [Verified, NonceWritten, UnknownCommand];
  }

  /** After the next power-up the working nonce is read from the EEPROM again,
      so the stored nonce verifies and the one it replaced fails. */
  lemma RebootAdoptsStoredNonce(prev: seq<byte>, buf: seq<byte>, next: seq<byte>)
    requires |buf| == BufSize && |prev| == NonceSize && AllPrintable(prev)
    requires |next| == NonceSize && AllPrintable(next) && next != prev
    ensures Loop(Boot(next), buf, Send(VerifyKeyword + [Space] + prev) + [Got(CR)]).replies == [VerificationFailed]
    ensures Loop(Boot(next), buf, Send(VerifyKeyword + [Space] + next) + [Got(CR)]).replies == [Verified]
  {
    RebootRejects(prev, buf, next);
    RebootAccepts(buf, next);
  }

  lemma RebootRejects(prev: seq<byte>, buf: seq<byte>, next: seq<byte>)
    requires |buf| == BufSize && |prev| == NonceSize && AllPrintable(prev)
    requires |next| == NonceSize && next != prev
    ensures Loop(Boot(next), buf, Send(VerifyKeyword + [Space] + prev) + [Got(CR)]).replies == [VerificationFailed]
  {
    var c := Send(VerifyKeyword + [Space] + prev) + [Got(CR)];
    assert c == c + [];
    WrongVerifyLine(Boot(next), buf, prev, []);
  }

  lemma RebootAccepts(buf: seq<byte>, next: seq<byte>)
    requires |buf| == BufSize && |next| == NonceSize && AllPrintable(next)
    ensures Loop(Boot(next), buf, Send(VerifyKeyword + [Space] + next) + [Got(CR)]).replies == [Verified]
  {
    var c := Send(VerifyKeyword + [Space] + next) + [Got(CR)];
    assert c == c + [];
    RightVerifyLine(Boot(next), buf, []);
  }
}
