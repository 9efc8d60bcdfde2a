/** `recv_str`: turns the stream of serial polls into one bounded line of
    printable characters. */
module LineReader {
  import opened Ascii

  /** What one call of `recv_str` does to a stream: the bytes it stores (in
      order, from the start of the buffer), how many polls it consumes, and
      whether it returned (`complete`) or was still waiting for input when the
      stream ran out. */
  datatype Recv = Recv(bytes: seq<byte>, used: nat, complete: bool)

  /** Puts `prefix` and `k` consumed polls in front of a later result. */
  function Extend(prefix: seq<byte>, k: nat, r: Recv): (whole: Recv) {
    Recv(prefix + r.bytes, k + r.used, r.complete)
  }

  /** Reading a line into a buffer that still has room for `room` bytes:
      a full buffer returns at once, a line end returns without being stored,
      a printable byte is stored, and anything else (idle polls included) is
      passed over. */
  function Scan(input: seq<Rx>, room: nat): (r: Recv)
    ensures |r.bytes| <= room
    ensures r.used <= |input|
    ensures r.complete && room > 0 ==> r.used > 0
    decreases |input|
  {
    if room == 0 then Recv([], 0, true)
    else if input == [] then Recv([], 0, false)
    else match input[0]
      case Idle => Extend([], 1, Scan(input[1..], room))
      case Got(b) =>
        if IsLineEnd(b) then Recv([], 1, true)
        else if IsPrintable(b) then Extend([b], 1, Scan(input[1..], room - 1))
        else Extend([], 1, Scan(input[1..], room))
  }

  /** The printable bytes among some polls, in order. */
  function Printables(s: seq<Rx>): (bytes: seq<byte>)
    decreases |s|
  {
    if s == [] then []
    else (if s[0].Got? && IsPrintable(s[0].b) then [s[0].b] else []) + Printables(s[1..])
  }

  predicate IsLineEndRx(x: Rx) {
    x.Got? && IsLineEnd(x.b)
  }

  predicate NoLineEnd(s: seq<Rx>) {
    forall i :: 0 <= i < |s| ==> !IsLineEndRx(s[i])
  }

  /** The three ways a call of `recv_str` can end, stated without recursion:
      at the first line end (not stored, with room still left), when the
      buffer has just been filled by a printable byte, or still waiting at the
      end of the stream. In every case the stored bytes are exactly the
      printable bytes that were consumed. */
  lemma {:induction false} ScanCharacterised(input: seq<Rx>, room: nat)
    ensures var r := Scan(input, room);
      if r.used > 0 && IsLineEndRx(input[r.used - 1]) then
        && r.complete
        && NoLineEnd(input[..r.used - 1])
        && r.bytes == Printables(input[..r.used - 1])
        && |r.bytes| < room
      else
        && NoLineEnd(input[..r.used])
        && r.bytes == Printables(input[..r.used])
        && (r.complete <==> |r.bytes| == room)
        && (!r.complete ==> r.used == |input|)
        && (r.complete && r.used > 0 ==> input[r.used - 1].Got? && IsPrintable(input[r.used - 1].b))
    decreases |input|, 1
  {
    var r := Scan(input, room);
    if room == 0 || input == [] {
      assert input[..r.used] == [];
    } else {
      var rest := input[1..];
      assert input[..1] == [input[0]];
      match input[0]
      case Idle =>
        TailStep(input, room, room);
      case Got(b) =>
        if IsLineEnd(b) {
          assert input[..r.used - 1] == [];
        } else if IsPrintable(b) {
          TailStep(input, room, room - 1);
        } else {
          TailStep(input, room, room);
        }
    }
  }

  /** The inductive step of ScanCharacterised: when the first poll is not a
      line end and Scan moves on to the rest with `room'` left. */
  lemma {:induction false} TailStep(input: seq<Rx>, room: nat, room': nat)
    requires room > 0 && input != [] && !IsLineEndRx(input[0])
    requires room' == if input[0].Got? && IsPrintable(input[0].b) then room - 1 else room
    ensures var r := Scan(input, room);
      if r.used > 0 && IsLineEndRx(input[r.used - 1]) then
        && r.complete
        && NoLineEnd(input[..r.used - 1])
        && r.bytes == Printables(input[..r.used - 1])
        && |r.bytes| < room
      else
        && NoLineEnd(input[..r.used])
        && r.bytes == Printables(input[..r.used])
        && (r.complete <==> |r.bytes| == room)
        && (!r.complete ==> r.used == |input|)
        && (r.complete && r.used > 0 ==> input[r.used - 1].Got? && IsPrintable(input[r.used - 1].b))
    decreases |input|, 0
  {
    var rest := input[1..];
    var t := Scan(rest, room');
    var r := Scan(input, room);
    ScanCharacterised(rest, room');
    var head := if input[0].Got? && IsPrintable(input[0].b) then [input[0].b] else [];
    assert r == Extend(head, 1, t);
    if t.used > 0 && IsLineEndRx(rest[t.used - 1]) {
      // The line end is further on: shift the prefix before it by one poll.
      assert input[r.used - 1] == rest[t.used - 1];
      PrefixStep(input, t.used);
    } else {
      assert t.used > 0 ==> input[r.used - 1] == rest[t.used - 1];
      PrefixStep(input, r.used);
    }
  }

  /** A prefix of `input` is its first poll followed by a prefix of the rest,
      for the printable bytes and the absence of line ends alike. */
  lemma PrefixStep(input: seq<Rx>, k: nat)
    requires 1 <= k <= |input|
    ensures var head := if input[0].Got? && IsPrintable(input[0].b) then [input[0].b] else [];
      Printables(input[..k]) == head + Printables(input[1..][..k - 1])
    ensures NoLineEnd(input[..k]) <==> !IsLineEndRx(input[0]) && NoLineEnd(input[1..][..k - 1])
  {
    var a, b := input[..k], input[1..][..k - 1];
    assert a == [input[0]] + b;
    assert a[1..] == b;
    assert NoLineEnd(b) && !IsLineEndRx(input[0]) ==> NoLineEnd(a) by {
      if NoLineEnd(b) && !IsLineEndRx(input[0]) {
        forall i | 0 <= i < k ensures !IsLineEndRx(a[i]) {
          if i > 0 { assert a[i] == b[i - 1]; }
        }
      }
    }
    assert NoLineEnd(a) ==> NoLineEnd(b) by {
      if NoLineEnd(a) {
        forall i | 0 <= i < k - 1 ensures !IsLineEndRx(b[i]) {
          assert b[i] == a[i + 1];
        }
      }
    }
  }

  /** Only printable bytes are ever stored. */
  lemma {:induction false} ScanStoresPrintable(input: seq<Rx>, room: nat)
    ensures AllPrintable(Scan(input, room).bytes)
    decreases |input|
  {
    if room > 0 && input != [] {
      ScanStoresPrintable(input[1..], if input[0].Got? && IsPrintable(input[0].b) then room - 1 else room);
    }
  }

  /** A printable line shorter than the buffer, sent with its line end, is
      read back exactly, and reading stops right after the line end. */
  lemma {:induction false} LineRoundTrip(line: seq<byte>, end: byte, rest: seq<Rx>, room: nat)
    requires AllPrintable(line) && IsLineEnd(end) && |line| < room
    ensures Scan(Send(line) + [Got(end)] + rest, room) == Recv(line, |line| + 1, true)
    decreases |line|
  {
    var input := Send(line) + [Got(end)] + rest;
    if line == [] {
      assert input[0] == Got(end);
    } else {
      assert input[0] == Got(line[0]);
      assert input[1..] == Send(line[1..]) + [Got(end)] + rest;
      LineRoundTrip(line[1..], end, rest, room - 1);
      assert [line[0]] + line[1..] == line;
    }
  }

  /** A printable line at least as long as the buffer fills it: `recv_str`
      returns the first `room` bytes and leaves everything after them,
      line end included, unread for the next call. */
  lemma {:induction false} LongLineFills(line: seq<byte>, rest: seq<Rx>, room: nat)
    requires AllPrintable(line) && |line| >= room
    ensures Scan(Send(line) + rest, room) == Recv(line[..room], room, true)
    decreases room
  {
    var input := Send(line) + rest;
    if room > 0 {
      assert input[0] == Got(line[0]);
      assert input[1..] == Send(line[1..]) + rest;
      LongLineFills(line[1..], rest, room - 1);
      assert [line[0]] + line[1..][..room - 1] == line[..room];
    }
  }

  /** One poll of `recv_str`'s loop: how the result still to come, with
      `prefix` stored and `k` polls consumed so far, follows from the poll at
      position `k`. */
  lemma ScanAdvance(input: seq<Rx>, k: nat, room: nat, prefix: seq<byte>, whole: Recv)
    requires k < |input| && room > 0
    requires whole == Extend(prefix, k, Scan(input[k..], room))
    ensures IsLineEndRx(input[k]) ==> whole == Recv(prefix, k + 1, true)
    ensures input[k].Got? && IsPrintable(input[k].b) ==>
      whole == Extend(prefix + [input[k].b], k + 1, Scan(input[k + 1..], room - 1))
    ensures !IsLineEndRx(input[k]) && !(input[k].Got? && IsPrintable(input[k].b)) ==>
      whole == Extend(prefix, k + 1, Scan(input[k + 1..], room))
  {
    assert input[k..][0] == input[k];
    assert input[k..][1..] == input[k + 1..];
    if input[k].Got? && IsPrintable(input[k].b) {
      assert !IsLineEnd(input[k].b);
      var r := Scan(input[k + 1..], room - 1);
      assert prefix + ([input[k].b] + r.bytes) == (prefix + [input[k].b]) + r.bytes;
    }
  }

  /** `recv_str(buf, size)`: polls `input` in order and stores the printable
      bytes at the front of `buf` until a line end, a full buffer, or the end
      of the stream. Bytes of `buf` past the returned count keep whatever an
      earlier line left there. */
  method RecvStr(buf: array<byte>, size: nat, input: seq<Rx>) returns (count: nat, used: nat, complete: bool)
    requires size <= buf.Length
    modifies buf
    ensures count <= size && AllPrintable(buf[..count])
    ensures Scan(input, size) == Recv(buf[..count], used, complete)
    ensures !complete ==> used == |input|
    ensures buf[count..] == old(buf[count..])
  {
    count, used := 0, 0;
    assert input[0..] == input;
    ghost var whole := Scan(input, size);
    while count < size
      invariant count <= size && used <= |input|
      invariant AllPrintable(buf[..count])
      invariant buf[count..] == old(buf[count..])
      invariant whole == Extend(buf[..count], used, Scan(input[used..], size - count))
      decreases |input| - used
    {
      if used == |input| {
        return count, used, false;
      }
      var r := input[used];
      ScanAdvance(input, used, size - count, buf[..count], whole);
      ghost var before := buf[..count];
      used := used + 1;
      if r.Got? {
        if r.b == CR || r.b == LF {
          return count, used, true;
        }
        if 0x20 <= r.b <= 0x7E {
          ghost var after := buf[count + 1..];
          assert after == old(buf[count..])[1..] == old(buf[count + 1..]);
          buf[count] := r.b;
          assert buf[count + 1..] == after;
          count := count + 1;
          assert buf[..count] == before + [r.b];
        }
      }
    }
    complete := true;
  }
}
