/** The Minecraft VarInt codec, the unsigned LEB128 of section 7.6 of DWARF Version 4: seven
    payload bits per byte, least significant group first, high bit set on all but the last byte.

    The code works with masks, shifts and OR on unbounded integers; the bitwise operators are
    defined bit by bit, and that they amount to arithmetic is proved. */
module VarIntCodec {

  type Byte = b: int | 0 <= b < 256

  datatype Result<+T> = Ok(value: T) | Closed

  // ----- bitwise operators on unbounded nonnegative integers

  function Pow2(k: nat): (p: nat)
    ensures p > 0
  {
    if k == 0 then 1 else 2 * Pow2(k - 1)
  }

  function And(a: nat, b: nat): nat {
    if a == 0 || b == 0 then 0 else 2 * And(a / 2, b / 2) + if a % 2 == 1 && b % 2 == 1 then 1 else 0
  }

  function Or(a: nat, b: nat): nat
    decreases a + b
  {
    if a == 0 then b else if b == 0 then a
    else 2 * Or(a / 2, b / 2) + if a % 2 == 1 || b % 2 == 1 then 1 else 0
  }

  function ShiftLeft(a: nat, k: nat): nat {
    a * Pow2(k)
  }

  function ShiftRight(a: nat, k: nat): nat {
    if k == 0 then a else ShiftRight(a / 2, k - 1)
  }

  lemma AtLeastOnce(x: nat, y: nat, d: nat)
    requires x > y
    ensures x * d >= y * d + d
  {
    assert x * d == y * d + (x - y) * d;
    assert (x - y) * d == d + (x - y - 1) * d;
  }

  lemma UniqueRemainder(a: nat, d: nat, q: nat, r: nat)
    requires r < d && a == q * d + r
    ensures a / d == q && a % d == r
  {
    var q', r' := a / d, a % d;
    assert a == q' * d + r';
    if q > q' { AtLeastOnce(q, q', d); }
    if q < q' { AtLeastOnce(q', q, d); }
  }

  lemma HalfRemainder(a: nat, p: nat)
    requires p > 0
    ensures a % (2 * p) == 2 * (a / 2 % p) + a % 2
  {
    var h := a / 2;
    var q, r := h / p, h % p;
    assert h == q * p + r;
    assert a == 2 * h + a % 2;
    assert a == q * (2 * p) + (2 * r + a % 2) by {
      assert 2 * (q * p) == q * (2 * p);
    }
    UniqueRemainder(a, 2 * p, q, 2 * r + a % 2);
  }

  /** Masking with k ones keeps the remainder modulo 2^k. */
  lemma {:induction false} MaskIsRemainder(a: nat, k: nat)
    ensures And(a, Pow2(k) - 1) == a % Pow2(k)
  {
    if a != 0 && k != 0 {
      MaskIsRemainder(a / 2, k - 1);
      var p := Pow2(k - 1);
      assert (2 * p - 1) / 2 == p - 1 && (2 * p - 1) % 2 == 1;
      HalfRemainder(a, p);
    }
  }

  lemma ShiftDoubles(b: nat, k: nat)
    requires b > 0 && k > 0
    ensures ShiftLeft(b, k) == 2 * ShiftLeft(b, k - 1) > 0
  {
    var p := Pow2(k - 1);
    assert b * (2 * p) == 2 * (b * p);
    AtLeastOnce(b, 0, p);
  }

  lemma OrOnEven(a: nat, s: nat)
    requires a > 0 && s > 0
    ensures Or(a, 2 * s) == 2 * Or(a / 2, s) + a % 2
  {
    assert 2 * s / 2 == s && 2 * s % 2 == 0;
  }

  /** OR with a value shifted past all of `a`'s bits is addition. */
  lemma {:induction false} OrIsSum(a: nat, b: nat, k: nat)
    requires a < Pow2(k)
    ensures Or(a, ShiftLeft(b, k)) == a + ShiftLeft(b, k)
  {
    if b == 0 {
      assert ShiftLeft(b, k) == 0;
    } else if a != 0 {
      OrIsSum(a / 2, b, k - 1);
      ShiftDoubles(b, k);
      OrOnEven(a, ShiftLeft(b, k - 1));
    }
  }

  lemma {:induction false} ZeroShifts(k: nat)
    ensures ShiftRight(0, k) == 0
  {
    if k != 0 {
      ZeroShifts(k - 1);
    }
  }

  /** Masking with a single one tests that bit. */
  lemma {:induction false} BitTest(a: nat, k: nat)
    ensures And(a, Pow2(k)) == if ShiftRight(a, k) % 2 == 1 then Pow2(k) else 0
  {
    if a == 0 {
      ZeroShifts(k);
    } else if k != 0 {
      BitTest(a / 2, k - 1);
    }
  }

  lemma HalfQuotient(a: nat, p: nat)
    requires p > 0
    ensures a / 2 / p == a / (2 * p)
  {
    var h := a / 2;
    var q, r := h / p, h % p;
    assert h == q * p + r && a == 2 * h + a % 2;
    assert a == q * (2 * p) + (2 * r + a % 2) by {
      assert 2 * (q * p) == q * (2 * p);
    }
    UniqueRemainder(a, 2 * p, q, 2 * r + a % 2);
  }

  /** Shifting right by k divides by 2^k. */
  lemma {:induction false} ShiftDivides(a: nat, k: nat)
    ensures ShiftRight(a, k) == a / Pow2(k)
  {
    if k != 0 {
      ShiftDivides(a / 2, k - 1);
      HalfQuotient(a, Pow2(k - 1));
    }
  }

  /** The seven low bits of a number, and the rest of it. */
  lemma LowBits(n: nat)
    ensures And(n, 0x7F) == n % 128 && ShiftRight(n, 7) == n / 128
  {
    MaskIsRemainder(n, 7);
    ShiftDivides(n, 7);
    assert Pow2(7) == 128;
  }

  lemma HighBit(b: Byte)
    ensures And(b, 0x80) == 0 <==> b < 128
  {
    BitTest(b, 7);
    ShiftDivides(b, 7);
    assert Pow2(7) == 128;
    assert b < 128 ==> b / 128 == 0;
    assert b >= 128 ==> b / 128 == 1;
  }

  lemma SetHighBit(low: nat)
    requires low < 128
    ensures Or(low, 0x80) == low + 128 && Or(low, 0) == low
  {
    OrIsSum(low, 1, 7);
    assert Pow2(7) == 128 && ShiftLeft(1, 7) == 128;
  }

  // ----- the format

  function Encode(n: nat): seq<Byte> {
    if n < 128 then [n] else [n % 128 + 128] + Encode(n / 128)
  }

  /** Decode one number from the front of a stream; the second component is what is left of it.
      A stream that ends before a final byte is `Closed`. */
  function Scan(stream: seq<Byte>): (Result<nat>, seq<Byte>) {
    if stream == [] then (Closed, [])
    else if stream[0] < 128 then (Ok(stream[0]), stream[1..])
    else
      match Scan(stream[1..])
      case (Ok(v), rest) => (Ok(stream[0] - 128 + 128 * v), rest)
      case (Closed, rest) => (Closed, rest)
  }

  lemma {:induction false} RoundTrip(n: nat, rest: seq<Byte>)
    ensures Scan(Encode(n) + rest) == (Ok(n), rest)
  {
    var stream := Encode(n) + rest;
    if n < 128 {
      assert stream[1..] == rest;
    } else {
      RoundTrip(n / 128, rest);
      assert stream[1..] == Encode(n / 128) + rest;
    }
  }

  /** No encoding is a proper prefix of another, and different numbers encode differently. */
  lemma PrefixFree(m: nat, n: nat)
    requires Encode(m) <= Encode(n)
    ensures m == n
  {
    var rest := Encode(n)[|Encode(m)|..];
    RoundTrip(m, rest);
    RoundTrip(n, []);
    assert Encode(m) + rest == Encode(n) == Encode(n) + [];
  }

  lemma SevenHigher(shift: nat)
    ensures Pow2(shift + 7) == 128 * Pow2(shift)
  {
    assert Pow2(shift + 7) == 2 * Pow2(shift + 6) == 4 * Pow2(shift + 5) == 8 * Pow2(shift + 4);
    assert Pow2(shift + 4) == 2 * Pow2(shift + 3) == 4 * Pow2(shift + 2) == 8 * Pow2(shift + 1);
  }

  /** The encoding has the least number of seven-bit groups, at least one, that hold `n`. */
  lemma {:induction false} EncodedLength(n: nat)
    ensures var k := |Encode(n)|; k >= 1 && n < Pow2(7 * k) && (k > 1 ==> Pow2(7 * (k - 1)) <= n)
  {
    assert Pow2(7) == 128;
    if n >= 128 {
      EncodedLength(n / 128);
      var k := |Encode(n / 128)|;
      assert |Encode(n)| == k + 1;
      SevenHigher(7 * k);
      assert 7 * (k + 1) == 7 * k + 7;
      if k > 1 {
        SevenHigher(7 * (k - 1));
        assert 7 * (k - 1) + 7 == 7 * k;
      }
    }
  }

  /** One complete varint: only its last byte has the high bit clear. */
  ghost predicate IsVarInt(bytes: seq<Byte>) {
    bytes != [] && bytes[|bytes| - 1] < 128 && forall k :: 0 <= k < |bytes| - 1 ==> bytes[k] >= 128
  }

  function GroupWeight(k: nat): nat {
    if k == 0 then 1 else 128 * GroupWeight(k - 1)
  }

  /** The number that a sequence of bytes stands for: seven bits a byte, least significant first. */
  function Value(bytes: seq<Byte>): nat {
    if bytes == [] then 0
    else
      var n := |bytes| - 1;
      Value(bytes[..n]) + bytes[n] % 128 * GroupWeight(n)
  }

  lemma GroupMoves(group: nat, n: nat)
    requires n > 0
    ensures group * GroupWeight(n) == 128 * (group * GroupWeight(n - 1))
  {
    var p := GroupWeight(n - 1);
    assert group * (128 * p) == 128 * (group * p);
  }

  lemma {:induction false} ValueFromTheFront(bytes: seq<Byte>)
    requires bytes != []
    ensures Value(bytes) == bytes[0] % 128 + 128 * Value(bytes[1..])
  {
    var n := |bytes| - 1;
    if n > 0 {
      ValueFromTheFront(bytes[..n]);
      assert bytes[..n][1..] == bytes[1..][..n - 1];
      GroupMoves(bytes[n] % 128, n);
    }
  }

  lemma ValueOfOneMore(b: Byte, tail: seq<Byte>)
    requires b >= 128
    ensures Value([b] + tail) == b - 128 + 128 * Value(tail)
  {
    ValueFromTheFront([b] + tail);
    assert ([b] + tail)[1..] == tail && b % 128 == b - 128;
  }

  lemma ScanOfOneMore(b: Byte, tail: seq<Byte>)
    requires b >= 128
    ensures Scan([b] + tail) == match Scan(tail)
              case (Ok(v), rest) => (Ok(b - 128 + 128 * v), rest)
              case (Closed, rest) => (Closed, rest)
  {
    assert ([b] + tail)[1..] == tail;
  }

  /** What is read: the value of the bytes up to the first with a clear high bit, at `n`, leaving the
      rest. Without such a byte the stream has closed too early, exactly then, and nothing is left. */
  lemma {:induction false} ScanExactly(stream: seq<Byte>) returns (n: nat)
    ensures n <= |stream| && (forall k :: 0 <= k < n ==> stream[k] >= 128) && (n < |stream| ==> stream[n] < 128)
    ensures Scan(stream)
            == if n < |stream| then (Ok(Value(stream[..n + 1])), stream[n + 1..]) else (Closed, [])
  {
    if stream == [] {
      n := 0;
    } else if stream[0] < 128 {
      n := 0;
      assert stream[..1] == [stream[0]];
      ValueFromTheFront(stream[..1]);
    } else {
      var m := ScanExactly(stream[1..]);
      n := m + 1;
      var b, tail := stream[0], stream[1..];
      assert stream == [b] + tail;
      ScanOfOneMore(b, tail);
      if m < |tail| {
        ValueOfOneMore(b, tail[..m + 1]);
        assert stream[..n + 1] == [b] + tail[..m + 1] && stream[n + 1..] == tail[m + 1..];
      }
    }
  }

  lemma EncodePrepends(b: Byte, v: nat)
    requires b >= 128 && v > 0
    ensures Encode(b - 128 + 128 * v) == [b] + Encode(v)
    ensures forall tail: seq<Byte> :: [b] + Encode(v) == [b] + tail <==> Encode(v) == tail
  {
    var n := b - 128 + 128 * v;
    UniqueRemainder(n, 128, v, b - 128);
    forall tail: seq<Byte> | [b] + Encode(v) == [b] + tail
      ensures Encode(v) == tail
    {
      assert ([b] + Encode(v))[1..] == Encode(v) && ([b] + tail)[1..] == tail;
    }
  }

  lemma CanonicalStep(b: Byte, tail: seq<Byte>, v: nat)
    requires b >= 128 && IsVarInt(tail) && Scan(tail) == (Ok(v), [])
    requires Encode(v) == tail <==> |tail| == 1 || tail[|tail| - 1] != 0
    ensures Scan([b] + tail) == (Ok(b - 128 + 128 * v), [])
    ensures Encode(b - 128 + 128 * v) == [b] + tail <==> tail[|tail| - 1] != 0
    ensures |Encode(b - 128 + 128 * v)| <= 1 + |Encode(v)|
  {
    assert ([b] + tail)[1..] == tail;
    if v == 0 {
      assert Encode(v) == [0] && Encode(b - 128) == [b - 128];
    } else {
      EncodePrepends(b, v);
      assert |tail| == 1 ==> v == tail[0];
    }
  }

  /** `bytes` are read in full; they are the encoder's own bytes exactly when the last group is not a
      padding zero, and never fewer than those. */
  ghost predicate ReadsBack(bytes: seq<Byte>)
    requires bytes != []
  {
    var (r, rest) := Scan(bytes);
    && r.Ok? && rest == []
    && (Encode(r.value) == bytes <==> |bytes| == 1 || bytes[|bytes| - 1] != 0)
    && |Encode(r.value)| <= |bytes|
  }

  lemma ReadsBackStep(b: Byte, tail: seq<Byte>)
    requires b >= 128 && IsVarInt(tail) && ReadsBack(tail)
    ensures ReadsBack([b] + tail)
  {
    CanonicalStep(b, tail, Scan(tail).0.value);
  }

  /** The decoder accepts padded forms too: what it reads re-encodes to the same bytes exactly
      when the last group is not a padding zero, and never to more bytes. */
  lemma {:induction false} Canonical(bytes: seq<Byte>)
    requires IsVarInt(bytes)
    ensures ReadsBack(bytes)
  {
    if |bytes| > 1 {
      var b, tail := bytes[0], bytes[1..];
      assert bytes == [b] + tail;
      Canonical(tail);
      ReadsBackStep(b, tail);
    }
  }

  // ----- the code

  lemma EncodeStep(n: nat, out: seq<Byte>)
    ensures var b, n' := And(n, 0x7F), ShiftRight(n, 7);
      && n' <= n && (n > 0 ==> n' < n)
      && Or(b, 0) < 256 && Or(b, 0x80) < 256
      && out + Encode(n) == if n' == 0 then out + [Or(b, 0)] else out + [Or(b, 0x80)] + Encode(n')
  {
    LowBits(n);
    SetHighBit(n % 128);
    if n >= 128 {
      assert out + Encode(n) == out + [n % 128 + 128] + Encode(n / 128);
    }
  }

  method VarInt(number: nat) returns (out: seq<Byte>)
    ensures out == Encode(number)
  {
    var n := number;
    out := [];
    while true
      invariant Encode(number) == out + Encode(n)
      decreases n
    {
      EncodeStep(n, out);
      var b := And(n, 0x7F);
      n := ShiftRight(n, 7);
      out := out + [Or(b, if n != 0 then 0x80 else 0)];
      if n == 0 {
        return;
      }
    }
  }

  /** The receiving end of a connection: the bytes that arrive before the peer closes it. */
  class Socket {
    var inbox: seq<Byte>

    constructor (bytes: seq<Byte>)
      ensures inbox == bytes
    {
      inbox := bytes;
    }

    /** One byte, or none once the peer has closed. */
    method Recv() returns (b: seq<Byte>)
      modifies this
      ensures if old(inbox) == [] then b == [] && inbox == [] else b == [old(inbox)[0]] && inbox == old(inbox)[1..]
    {
      if inbox == [] {
        b := [];
      } else {
        b, inbox := [inbox[0]], inbox[1..];
      }
    }
  }

  /** The whole result, when `n` has been read so far and `later` is what the rest reads as. */
  ghost function Resume(n: nat, shift: nat, later: (Result<nat>, seq<Byte>)): (Result<nat>, seq<Byte>) {
    match later
    case (Ok(v), rest) => (Ok(n + ShiftLeft(v, shift)), rest)
    case (Closed, rest) => (Closed, rest)
  }

  /** Seven more bits fit above the ones read so far. */
  lemma NextGroupFits(n: nat, low: nat, shift: nat)
    requires n < Pow2(shift) && low < 128
    ensures n + ShiftLeft(low, shift) < Pow2(shift + 7)
  {
    SevenHigher(shift);
    AtLeastOnce(128, low, Pow2(shift));
  }

  lemma NextGroupShifts(low: nat, v: nat, shift: nat)
    ensures ShiftLeft(low + 128 * v, shift) == ShiftLeft(low, shift) + ShiftLeft(v, shift + 7)
  {
    var p := Pow2(shift);
    SevenHigher(shift);
    assert (low + 128 * v) * p == low * p + v * (128 * p);
  }

  lemma ResumeStep(n: nat, shift: nat, stream: seq<Byte>)
    requires stream != [] && n < Pow2(shift)
    ensures var m := n + ShiftLeft(stream[0] % 128, shift);
      && m < Pow2(shift + 7)
      && Resume(n, shift, Scan(stream)) ==
         if stream[0] < 128 then (Ok(m), stream[1..]) else Resume(m, shift + 7, Scan(stream[1..]))
  {
    var low := stream[0] % 128;
    NextGroupFits(n, low, shift);
    if stream[0] >= 128 && Scan(stream[1..]).0.Ok? {
      NextGroupShifts(low, Scan(stream[1..]).0.value, shift);
    }
  }

  method ReadVarInt(sock: Socket) returns (r: Result<nat>)
    modifies sock
    ensures (r, sock.inbox) == Scan(old(sock.inbox))
  {
    var n: nat, shift: nat := 0, 0;
    assert Pow2(0) == 1;
    while true
      invariant n < Pow2(shift)
      invariant Scan(old(sock.inbox)) == Resume(n, shift, Scan(sock.inbox))
      decreases |sock.inbox|
    {
      ghost var stream := sock.inbox;
      var b := sock.Recv();
      if b == [] {
        return Closed;
      }
      LowBits(b[0]);
      HighBit(b[0]);
      OrIsSum(n, b[0] % 128, shift);
      ResumeStep(n, shift, stream);
      n := Or(n, ShiftLeft(And(b[0], 0x7F), shift));
      if And(b[0], 0x80) == 0 {
        return Ok(n);
      }
      shift := shift + 7;
    }
  }
}
