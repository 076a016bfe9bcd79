/**
 * The Internet checksum of an ICMP echo request (icmpecho.c), on a machine
 * whose 16-bit loads are little-endian and whose unsigned int has 32 bits.
 */
module Checksum {

  type byte = b: int | 0 <= b < 256

  const MAX_WORDS := 65537

  /** Word i of the buffer; an odd last byte is a word of its own. */
  function Word(b: seq<byte>, i: int): (w: int)
    requires 0 <= 2 * i < |b|
    ensures 0 <= w < 0x1_0000
  {
    var low: int, high: int := b[2 * i], if 2 * i + 1 < |b| then b[2 * i + 1] else 0;
    low + 256 * high
  }

  /** The buffer as 16-bit words. */
  ghost function Words(b: seq<byte>): (w: seq<int>)
    ensures |w| == (|b| + 1) / 2
    ensures forall i :: 0 <= i < |w| ==> w[i] == Word(b, i)
  {
    seq((|b| + 1) / 2, i requires 0 <= 2 * i < |b| => Word(b, i))
  }

  ghost function Sum(w: seq<int>): int {
    if w == [] then 0 else Sum(w[..|w| - 1]) + w[|w| - 1]
  }

  // ---------- One's complement arithmetic (RFC 1071 section 1) ----------

  /** Addition of 16-bit numbers with end-around carry. */
  function OnesAdd(a: int, b: int): int {
    if a + b < 0x1_0000 then a + b else a + b - 0xFFFF
  }

  /** The one's complement sum of 16-bit words. */
  ghost function OnesSum(w: seq<int>): int {
    if w == [] then 0 else OnesAdd(OnesSum(w[..|w| - 1]), w[|w| - 1])
  }

  /** The representative of n modulo 65535 in 1..65535, or 0 for 0. */
  function Reduce(n: int): int {
    if n == 0 then 0 else (n - 1) % 0xFFFF + 1
  }

  /** Reduce is determined by its range and residue. */
  lemma ReduceUnique(n: int, r: int, q: int)
    requires n >= 0 && n == q * 0xFFFF + r && 0 <= r < 0x1_0000 && (r == 0 <==> n == 0)
    ensures Reduce(n) == r
  {
    if n > 0 {
      assert n - 1 == q * 0xFFFF + (r - 1);
    }
  }

  lemma {:induction false} OnesSumIsReduce(w: seq<int>)
    requires forall i :: 0 <= i < |w| ==> 0 <= w[i] < 0x1_0000
    ensures OnesSum(w) == Reduce(Sum(w)) && Sum(w) >= 0
    decreases |w|
  {
    if w != [] {
      var init, last := w[..|w| - 1], w[|w| - 1];
      OnesSumIsReduce(init);
      var n, r := Sum(init), Reduce(Sum(init));
      var q := if n == 0 then 0 else (n - 1) / 0xFFFF;
      assert n == q * 0xFFFF + r;
      if r + last < 0x1_0000 {
        ReduceUnique(n + last, r + last, q);
      } else {
        ReduceUnique(n + last, r + last - 0xFFFF, q + 1);
      }
    }
  }

  // ---------- The checksum as computed ----------

  /** The two foldings of the 32-bit sum, cut to 16 bits. */
  function Fold(sum: int): int {
    var once := sum / 0x1_0000 + sum % 0x1_0000;
    var twice := once + once / 0x1_0000;
    twice % 0x1_0000
  }

  lemma FoldIsReduce(sum: int)
    requires 0 <= sum < 0x1_0000_0000
    ensures Fold(sum) == Reduce(sum)
  {
    var high, low := sum / 0x1_0000, sum % 0x1_0000;
    if high + low < 0x1_0000 {
      ReduceUnique(sum, high + low, high);
    } else {
      ReduceUnique(sum, high + low - 0xFFFF, high + 1);
    }
  }

  /** The 32-bit sum over the words of a buffer. */
  ghost function Sum32(b: seq<byte>): int {
    Sum(Words(b)) % 0x1_0000_0000
  }

  /** The complement of the folded 32-bit sum. */
  ghost function Computed(b: seq<byte>): (c: int)
    ensures 0 <= c < 0x1_0000
  {
    0xFFFF - Fold(Sum32(b))
  }

  /** What RFC 1071 asks for: the complement of the one's complement sum. */
  ghost function Specified(b: seq<byte>): int {
    0xFFFF - OnesSum(Words(b))
  }

  lemma {:induction false} SumBounds(w: seq<int>)
    requires forall i :: 0 <= i < |w| ==> 0 <= w[i] < 0x1_0000
    ensures 0 <= Sum(w) <= |w| * 0xFFFF
    decreases |w|
  {
    if w != [] {
      SumBounds(w[..|w| - 1]);
    }
  }

  lemma ComputedIsReduce(b: seq<byte>)
    requires 0 <= Sum(Words(b)) < 0x1_0000_0000
    ensures Computed(b) == 0xFFFF - Reduce(Sum(Words(b)))
  {
    var n := Sum(Words(b));
    FoldIsReduce(n);
    assert n % 0x1_0000_0000 == n;
  }

  /** The sum of at most 65537 words fits into 32 bits. */
  lemma SumFits(w: seq<int>)
    requires |w| <= MAX_WORDS && forall i :: 0 <= i < |w| ==> 0 <= w[i] < 0x1_0000
    ensures 0 <= Sum(w) < 0x1_0000_0000
  {
    SumBounds(w);
  }

  /** For at most 65537 words the 32-bit sum does not overflow, and the checksum is the one specified. */
  lemma ComputedAsSpecified(b: seq<byte>)
    requires |Words(b)| <= MAX_WORDS
    ensures 0 <= Sum(Words(b)) < 0x1_0000_0000
    ensures Computed(b) == Specified(b)
  {
    SumFits(Words(b));
    ComputedIsReduce(b);
    OnesSumIsReduce(Words(b));
  }

  /** Dropping k carries out of 32 bits keeps the residue exactly when 65535 divides k. */
  lemma DroppedCarries(k: int, rest: int)
    requires k >= 0 && 0 < rest < 0x1_0000_0000
    ensures Reduce(k * 0x1_0000_0000 + rest) == Reduce(rest) <==> k % 0xFFFF == 0
  {
    var q, r := (rest - 1) / 0xFFFF, (rest - 1) % 0xFFFF + 1;
    var kq, kr := k / 0xFFFF, k % 0xFFFF;
    var n := k * 0x1_0000_0000 + rest;
    assert n == (k * MAX_WORDS + kq + q) * 0xFFFF + (kr + r);
    if kr + r < 0x1_0000 {
      ReduceUnique(n, kr + r, k * MAX_WORDS + kq + q);
    } else {
      ReduceUnique(n, kr + r - 0xFFFF, k * MAX_WORDS + kq + q + 1);
    }
  }

  /** For a buffer of any length: the wrapped sum is right exactly when the lost carries vanish modulo 65535. */
  lemma ComputedAsSpecifiedExactly(b: seq<byte>)
    ensures Computed(b) == Specified(b) <==>
            ( && Sum(Words(b)) / 0x1_0000_0000 % 0xFFFF == 0
              && (Sum(Words(b)) % 0x1_0000_0000 == 0 ==> Sum(Words(b)) == 0) )
  {
    var n := Sum(Words(b));
    SumBounds(Words(b));
    OnesSumIsReduce(Words(b));
    FoldIsReduce(n % 0x1_0000_0000);
    assert n == n / 0x1_0000_0000 * 0x1_0000_0000 + n % 0x1_0000_0000;
    if n % 0x1_0000_0000 != 0 {
      DroppedCarries(n / 0x1_0000_0000, n % 0x1_0000_0000);
    }
  }

  /** An odd last byte counts as if a zero byte were behind it (RFC 1071 section 4.1). */
  lemma OddIsPadded(b: seq<byte>)
    requires |b| % 2 == 1
    ensures Computed(b) == Computed(b + [0])
  {
    assert forall i :: 0 <= i < |Words(b)| ==> Words(b)[i] == Words(b + [0])[i];
    assert Words(b) == Words(b + [0]);
  }

  lemma ExampleSum()
    ensures Sum([0x100, 0x3F2, 0xF5F4, 0xF7F6]) == 0x1_F2DC
  {
    var w := [0x100, 0x3F2, 0xF5F4, 0xF7F6];
    assert w[..3] == [0x100, 0x3F2, 0xF5F4] && w[..3][..2] == [0x100, 0x3F2] && [0x100, 0x3F2][..1] == [0x100];
    assert Sum([0x100]) == 0x100;
    assert Sum([0x100, 0x3F2]) == 0x4F2;
    assert Sum(w[..3]) == 0xFAE6;
  }

  /** The numerical example of RFC 1071 section 3: the sum 0xDDF2, by bytes, and its complement 0x220D. */
  lemma ExampleOfRfc1071(b: seq<byte>)
    requires b == [0x00, 0x01, 0xF2, 0x03, 0xF4, 0xF5, 0xF6, 0xF7]
    ensures Computed(b) == 0x22 + 256 * 0x0D
  {
    hide Sum;
    assert Words(b) == [0x100, 0x3F2, 0xF5F4, 0xF7F6];
    ExampleSum();
  }

  // ---------- Verification by the receiver ----------

  lemma {:induction false} SumOfUpdate(w: seq<int>, k: int, v: int)
    requires 0 <= k < |w|
    ensures Sum(w[k := v]) == Sum(w) - w[k] + v
    decreases |w|
  {
    var x := w[k := v];
    if k == |w| - 1 {
      assert x[..|x| - 1] == w[..|w| - 1];
    } else {
      assert x[..|x| - 1] == w[..|w| - 1][k := v];
      SumOfUpdate(w[..|w| - 1], k, v);
    }
  }

  /** b with a 16-bit number stored in its word k. */
  ghost function Stored(b: seq<byte>, k: int, v: int): seq<byte>
    requires 0 <= k && 2 * k + 1 < |b| && 0 <= v < 0x1_0000
  {
    b[2 * k := v % 256][2 * k + 1 := v / 256]
  }

  /** Storing both bytes of word k changes that word only. */
  lemma WordsOfUpdate(b: seq<byte>, k: int, v: int)
    requires 0 <= k && 2 * k + 1 < |b| && 0 <= v < 0x1_0000
    ensures Words(Stored(b, k, v)) == Words(b)[k := v]
  {
    var x := Stored(b, k, v);
    forall i | 0 <= i < |Words(b)|
      ensures Words(x)[i] == Words(b)[k := v][i]
    {
      assert i != k ==> Word(x, i) == Word(b, i);
    }
  }

  /** b with the checksum of b stored in its word k. */
  ghost function Stamped(b: seq<byte>, k: int): seq<byte>
    requires 0 <= k && 2 * k + 1 < |b|
  {
    Stored(b, k, Computed(b))
  }

  /** A sum and its own checksum add up to a positive multiple of 65535. */
  lemma ComplementCompletes(n: int)
    requires n >= 0
    ensures 0 <= Reduce(n) <= 0xFFFF
    ensures Reduce(n + (0xFFFF - Reduce(n))) == 0xFFFF
  {
    if n == 0 {
      ReduceUnique(0xFFFF, 0xFFFF, 0);
    } else {
      var q := (n - 1) / 0xFFFF;
      assert n == q * 0xFFFF + Reduce(n);
      ReduceUnique(n + (0xFFFF - Reduce(n)), 0xFFFF, q);
    }
  }

  lemma StampedSum(b: seq<byte>, k: int)
    requires 0 <= k && 2 * k + 1 < |b| && b[2 * k] == 0 && b[2 * k + 1] == 0
    ensures Sum(Words(Stamped(b, k))) == Sum(Words(b)) + Computed(b)
  {
    WordsOfUpdate(b, k, Computed(b));
    SumOfUpdate(Words(b), k, Computed(b));
  }

  /**
   * Storing the checksum in a field that was zero makes the checksum of the
   * whole buffer zero, wherever the field is and whatever the rest holds.
   */
  lemma StampedVerifies(b: seq<byte>, k: int)
    requires 0 <= k && 2 * k + 1 < |b| && b[2 * k] == 0 && b[2 * k + 1] == 0
    requires |Words(b)| <= MAX_WORDS
    ensures Computed(Stamped(b, k)) == 0
  {
    StampedSum(b, k);
    SumFits(Words(b));
    ComputedIsReduce(b);
    ComplementCompletes(Sum(Words(b)));
    SumFits(Words(Stamped(b, k)));
    ComputedIsReduce(Stamped(b, k));
  }

  // ---------- The code ----------

  /** The sum over one word more. */
  lemma SumOfPrefix(b: seq<byte>, at: int, len: int)
    requires 0 <= at && at % 2 == 0 && 1 <= len <= 2 && (len == 2 || at + 1 == |b|) && at + len <= |b|
    ensures Sum(Words(b[..at + len])) == Sum(Words(b[..at])) + Word(b, at / 2)
  {
    var w, x := Words(b[..at]), Words(b[..at + len]);
    assert x[..|x| - 1] == w;
  }

  /** Adding one more word to the 32-bit sum. */
  lemma Sum32OfPrefix(b: seq<byte>, at: int, len: int)
    requires 0 <= at && at % 2 == 0 && 1 <= len <= 2 && (len == 2 || at + 1 == |b|) && at + len <= |b|
    ensures Sum32(b[..at + len]) == (Sum32(b[..at]) + Word(b, at / 2)) % 0x1_0000_0000
  {
    SumOfPrefix(b, at, len);
  }

  /** Folds the 32-bit sum twice and complements it. */
  method Finish(total: int) returns (checksum: int)
    ensures checksum == 0xFFFF - Fold(total)
  {
    var sum := total / 0x1_0000 + total % 0x1_0000;
    sum := sum + sum / 0x1_0000;
    checksum := 0xFFFF - sum % 0x1_0000;
  }

  /** The checksum over the whole buffer. */
  method Checksum(buf: array<byte>) returns (checksum: int)
    ensures checksum == Computed(buf[..])
  {
    ghost var b := buf[..];
    var len := buf.Length;
    var sum: int := 0;
    var at := 0;
    while len > 1
      invariant 0 <= len && at + len == buf.Length && at % 2 == 0
      invariant sum == Sum32(b[..at])
    {
      Sum32OfPrefix(b, at, 2);
      var low: int, high: int := buf[at], buf[at + 1];
      sum := (sum + (low + 256 * high)) % 0x1_0000_0000;
      at, len := at + 2, len - 2;
    }
    if len == 1 {
      Sum32OfPrefix(b, at, 1);
      var last: int := buf[at];
      sum := (sum + last) % 0x1_0000_0000;
    }
    assert b[..at + len] == b;
    checksum := Finish(sum);
  }

  const PACKET_SIZE := 64
  const HEADER_SIZE := 8
  const ICMP_ECHO := 8
  /** The character zero. */
  const ZERO := 48

  /** An echo request with sequence number 1 whose checksum field is still zero. */
  ghost predicate Blank(packet: seq<byte>, id: int) {
    && |packet| == PACKET_SIZE
    && packet[..HEADER_SIZE] == [ICMP_ECHO, 0, 0, 0, id % 256, id / 256 % 256, 1, 0]
    && (forall i :: HEADER_SIZE <= i < PACKET_SIZE - 1 ==> packet[i] == i - HEADER_SIZE + ZERO)
    && packet[PACKET_SIZE - 1] == 0
  }

  method Fill(id: int) returns (packet: array<byte>)
    ensures fresh(packet) && Blank(packet[..], id)
  {
    packet := new byte[PACKET_SIZE](_ => 0);
    var low, high := id % 256, id / 256 % 256;
    packet[0], packet[4], packet[5] := ICMP_ECHO, low, high;
    var i := 0;
    while i < PACKET_SIZE - HEADER_SIZE - 1
      invariant 0 <= i <= PACKET_SIZE - HEADER_SIZE - 1
      invariant packet[..HEADER_SIZE] == [ICMP_ECHO, 0, 0, 0, low, high, 0, 0]
      invariant forall j :: HEADER_SIZE <= j < HEADER_SIZE + i ==> packet[j] == j - HEADER_SIZE + ZERO
    {
      packet[HEADER_SIZE + i] := i + ZERO;
      i := i + 1;
    }
    packet[HEADER_SIZE + i] := 0;
    packet[6] := 1;
    assert packet[..HEADER_SIZE] == [ICMP_ECHO, 0, 0, 0, low, high, 1, 0];
  }

  /** The bytes of an echo request (RFC 792) but for its checksum. */
  lemma EchoRequest(blank: seq<byte>, id: int)
    requires Blank(blank, id)
    ensures var p := Stamped(blank, 1);
            && |p| == 64 && p[0] == 8 && p[1] == 0
            && p[4] == id % 256 && p[5] == id / 256 % 256 && p[6] == 1 && p[7] == 0
            && (forall i :: 8 <= i < 63 ==> p[i] == '0' as int + i - 8) && p[63] == 0
  {
    hide Computed;
    assert blank[..HEADER_SIZE] == [ICMP_ECHO, 0, 0, 0, id % 256, id / 256 % 256, 1, 0];
    assert forall i :: 0 <= i < 8 ==> blank[i] == blank[..HEADER_SIZE][i];
  }

  /** Fills an echo request for the given identifier and stamps it. */
  method Prepare(id: int) returns (packet: array<byte>)
    ensures fresh(packet) && packet.Length == PACKET_SIZE
    ensures exists blank :: Blank(blank, id) && packet[..] == Stamped(blank, 1)
    ensures Computed(packet[..]) == 0
    ensures packet.Length == 64 && packet[0] == 8 && packet[1] == 0
    ensures packet[4] == id % 256 && packet[5] == id / 256 % 256 && packet[6] == 1 && packet[7] == 0
    ensures (forall i :: 8 <= i < 63 ==> packet[i] == '0' as int + i - 8) && packet[63] == 0
  {
    packet := Fill(id);
    ghost var blank := packet[..];
    StampedVerifies(blank, 1);
    EchoRequest(blank, id);
    hide Blank;
    var checksum := Checksum(packet);
    packet[2] := checksum % 256;
    packet[3] := checksum / 256;
    assert packet[..] == Stamped(blank, 1);
  }
}
