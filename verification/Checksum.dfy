/** The 16-bit buffer checksum of switch_main.c, proved against the one's-complement
    checksum of RFC 1071 (sections 1 and 2): end-around-carry addition of 16-bit words.
    The 32-bit accumulator is modelled with its wrap-around written out. */
module Checksum {

  type byte = b: int | 0 <= b < 0x100
  type word = w: int | 0 <= w < 0x1_0000

  // ---- RFC 1071 -------------------------------------------------------------

  /** The buffer as 16-bit words, low byte first; an odd last byte is a word of its own. */
  function Words(b: seq<byte>): seq<word> {
    if |b| == 0 then []
    else if |b| == 1 then [b[0]]
    else [Load(b[0], b[1])] + Words(b[2..])
  }

  function Load(low: byte, high: byte): word {
    low as int + 0x100 * high as int
  }

  /** Addition with end-around carry. */
  function OnesAdd(a: word, b: word): word {
    if a + b > 0xFFFF then a + b - 0xFFFF else a + b
  }

  function OnesSum(ws: seq<word>): word {
    if ws == [] then 0 else OnesAdd(ws[0], OnesSum(ws[1..]))
  }

  /** The checksum of RFC 1071: the complement of the one's-complement sum. */
  function Checksum16(b: seq<byte>): word {
    Complement(OnesSum(Words(b)))
  }

  function Complement(w: word): word {
    0xFFFF - w
  }

  // ---- Plain sums and their residues ------------------------------------------

  function Sum(ws: seq<word>): nat {
    if ws == [] then 0 else ws[0] + Sum(ws[1..])
  }

  /** The plain sum of the words of a buffer. */
  function WordSum(b: seq<byte>): nat {
    Sum(Words(b))
  }

  lemma WordSumStep(b: seq<byte>, p: nat)
    requires p + 2 <= |b|
    ensures WordSum(b[p..]) == Load(b[p], b[p + 1]) + WordSum(b[p + 2..])
  {
  }

  lemma WordSumTail(b: seq<byte>)
    requires |b| <= 1
    ensures WordSum(b) == if b == [] then 0 else b[0]
  {
    if b != [] {
      assert Words(b) == [b[0]];
      assert Sum(Words(b)) == b[0] as int + Sum(Words(b)[1..]);
    }
  }

  /** A 32-bit accumulator holds the plain sum of any buffer of at most 65535 bytes. */
  lemma {:induction false} AccumulatorFits(b: seq<byte>)
    ensures 2 * WordSum(b) <= 0xFFFF * (|b| + 1)
    ensures |b| < 0x1_0000 ==> WordSum(b) < 0x1_0000_0000
  {
    if |b| < 2 {
      WordSumTail(b);
    } else {
      assert b[0..] == b;
      WordSumStep(b, 0);
      AccumulatorFits(b[2..]);
    }
  }

  /** The representative of s modulo 65535 that end-around carry arrives at:
      zero only for zero, otherwise in 1..65535. */
  function Canon(s: nat): word {
    if s == 0 then 0 else (s - 1) % 0xFFFF + 1
  }

  lemma CanonUnique(s: nat, c: word, k: int)
    requires s == c + 0xFFFF * k && (s == 0 <==> c == 0)
    ensures Canon(s) == c
  {
  }

  lemma CanonSplit(s: nat) returns (k: nat)
    ensures s == Canon(s) + 0xFFFF * k
  {
    k := if s == 0 then 0 else (s - 1) / 0xFFFF;
  }

  lemma OnesAddIsCanon(a: word, s: nat)
    ensures OnesAdd(a, Canon(s)) == Canon(a + s)
  {
  }

  /** End-around-carry addition computes the plain sum modulo 65535, with the two zeros
      told apart. */
  lemma {:induction false} OnesSumIsCanon(ws: seq<word>)
    ensures OnesSum(ws) == Canon(Sum(ws))
  {
    if ws != [] {
      OnesSumIsCanon(ws[1..]);
      OnesAddIsCanon(ws[0], Sum(ws[1..]));
    }
  }

  lemma OnesSumCongruent(ws: seq<word>)
    ensures OnesSum(ws) % 0xFFFF == Sum(ws) % 0xFFFF
  {
    OnesSumIsCanon(ws);
    var k := CanonSplit(Sum(ws));
    assert (Canon(Sum(ws)) + 0xFFFF * k) % 0xFFFF == Canon(Sum(ws)) % 0xFFFF;
  }

  /** Addition of 32-bit unsigned values, wrapping around. */
  function Add32(a: nat, b: nat): nat
    requires a < 0x1_0000_0000 && b < 0x1_0000_0000
  {
    if a + b < 0x1_0000_0000 then a + b else a + b - 0x1_0000_0000
  }

  lemma Add32Wraps(a: nat, b: nat)
    requires a < 0x1_0000_0000 && b < 0x1_0000_0000
    ensures Add32(a, b) == (a + b) % 0x1_0000_0000
  {
  }

  /** Two folds of a 32-bit value leave the canonical residue in its low half. */
  lemma TwoFolds(s: nat)
    requires s < 0x1_0000_0000
    ensures var s1 := s / 0x1_0000 + s % 0x1_0000;
            var s2 := s1 + s1 / 0x1_0000;
            s1 < 0x1_0000_0000 && s2 < 2 * 0x1_0000 && s2 % 0x1_0000 == Canon(s)
  {
  }

  // ---- The loop of the source ---------------------------------------------------

  method FoldAndComplement(acc: nat) returns (crc: nat)
    requires acc < 0x1_0000_0000
    ensures crc < 0x1_0000_0000 && crc / 0x1_0000 >= 0xFFFF - 1
    ensures crc % 0x1_0000 == 0xFFFF - Canon(acc)
  {
    TwoFolds(acc);
    var sum := Add32(acc / 0x1_0000, acc % 0x1_0000);
    sum := Add32(sum, sum / 0x1_0000);
    crc := 0xFFFF_FFFF - sum;
  }

  /** The low half of the result is the RFC 1071 checksum of the first `size` bytes. The
      result is not masked: its high half is all ones, less the last fold's carry. */
  method XIeeeCrc16(buf: array<byte>, size: nat) returns (crc: nat)
    requires size < 0x1_0000 && size <= buf.Length
    ensures crc < 0x1_0000_0000 && crc / 0x1_0000 >= 0xFFFF - 1
    ensures crc % 0x1_0000 == Checksum16(buf[..size])
  {
    var sum: nat, p: nat, left: nat := 0, 0, size;
    ghost var b := buf[..size];
    assert b[0..] == b;
    while left >= 2
      invariant p + left == size
      invariant 2 * sum <= 0xFFFF * p
      invariant sum + WordSum(b[p..]) == WordSum(b)
    {
      WordSumStep(b, p);
      sum := Add32(sum, Load(buf[p], buf[p + 1]));
      left := left - 2;
      p := p + 2;
    }
    WordSumTail(b[p..]);
    if left != 0 {
      sum := Add32(sum, buf[p]);
    }
    crc := FoldAndComplement(sum);
    OnesSumIsCanon(Words(b));
  }

  // ---- Self-verification ----------------------------------------------------------

  lemma {:induction false} WordsAppend(b: seq<byte>, t: seq<byte>)
    requires |b| % 2 == 0
    ensures Words(b + t) == Words(b) + Words(t)
  {
    if b == [] {
      assert b + t == t;
    } else {
      assert (b + t)[2..] == b[2..] + t;
      WordsAppend(b[2..], t);
    }
  }

  lemma {:induction false} SumAppend(ws: seq<word>, vs: seq<word>)
    ensures Sum(ws + vs) == Sum(ws) + Sum(vs)
  {
    if ws == [] {
      assert ws + vs == vs;
    } else {
      assert (ws + vs)[1..] == ws[1..] + vs;
      SumAppend(ws[1..], vs);
    }
  }

  function LittleEndian(w: word): seq<byte> {
    [w % 0x100, w / 0x100]
  }

  /** A buffer carrying its own checksum verifies to zero, and no other trailer does:
      except that the two zeros of one's-complement arithmetic stand for each other. */
  lemma SelfVerification(b: seq<byte>, c: word)
    requires |b| % 2 == 0
    ensures Checksum16(b + LittleEndian(c)) == 0
       <==> c == Checksum16(b) || (Checksum16(b) == 0 && c == 0xFFFF)
  {
    var s := Sum(Words(b));
    WordsAppend(b, LittleEndian(c));
    assert Words(LittleEndian(c)) == [c];
    SumAppend(Words(b), [c]);
    assert Sum(Words(b + LittleEndian(c))) == s + c;
    OnesSumIsCanon(Words(b));
    OnesSumIsCanon(Words(b + LittleEndian(c)));
    var k := CanonSplit(s);
    var d := Canon(s) + c;
    if d == 0 {
      CanonUnique(s + c, 0, k);
    } else if d <= 0xFFFF {
      CanonUnique(s + c, d, k);
    } else {
      CanonUnique(s + c, d - 0xFFFF, k + 1);
    }
  }

  // ---- Word order and byte order ------------------------------------------------------

  function Without(vs: seq<word>, i: nat): seq<word>
    requires i < |vs|
  {
    vs[..i] + vs[i + 1..]
  }

  lemma MultisetWithout(vs: seq<word>, i: nat)
    requires i < |vs|
    ensures multiset(Without(vs, i)) == multiset(vs) - multiset{vs[i]}
  {
    assert vs == vs[..i] + [vs[i]] + vs[i + 1..];
    assert multiset(vs) == multiset(Without(vs, i)) + multiset{vs[i]};
  }

  lemma {:induction false} SumWithout(vs: seq<word>, i: nat)
    requires i < |vs|
    ensures Sum(vs) == vs[i] + Sum(Without(vs, i))
  {
    if i == 0 {
      assert Without(vs, i) == vs[1..];
    } else {
      SumWithout(vs[1..], i - 1);
      assert Without(vs, i)[1..] == Without(vs[1..], i - 1);
    }
  }

  lemma {:induction false} SumOfPermutation(ws: seq<word>, vs: seq<word>)
    requires multiset(ws) == multiset(vs)
    ensures Sum(ws) == Sum(vs)
  {
    if ws == [] {
      assert |vs| == |multiset(vs)| == 0;
    } else {
      assert ws[0] in multiset(vs);
      var i :| 0 <= i < |vs| && vs[i] == ws[0];
      SumWithout(vs, i);
      MultisetWithout(vs, i);
      MultisetWithout(ws, 0);
      assert ws[1..] == Without(ws, 0);
      SumOfPermutation(ws[1..], Without(vs, i));
    }
  }

  /** The checksum does not depend on the order of the words. */
  lemma OrderIndependence(b: seq<byte>, d: seq<byte>)
    requires multiset(Words(b)) == multiset(Words(d))
    ensures Checksum16(b) == Checksum16(d)
  {
    SumOfPermutation(Words(b), Words(d));
    OnesSumIsCanon(Words(b));
    OnesSumIsCanon(Words(d));
  }

  function Swap16(w: word): word {
    w % 0x100 * 0x100 + w / 0x100
  }

  function SwapBytes(b: seq<byte>): (s: seq<byte>)
    requires |b| % 2 == 0
    ensures |s| == |b|
  {
    if b == [] then [] else [b[1], b[0]] + SwapBytes(b[2..])
  }

  lemma {:induction false} SwappedSum(b: seq<byte>) returns (k: int)
    requires |b| % 2 == 0
    ensures Sum(Words(SwapBytes(b))) == 0x100 * Sum(Words(b)) - 0xFFFF * k
    ensures Sum(Words(SwapBytes(b))) == 0 <==> Sum(Words(b)) == 0
  {
    if b == [] {
      k := 0;
    } else {
      k := SwappedSum(b[2..]);
      var s := SwapBytes(b);
      assert s[2..] == SwapBytes(b[2..]);
      k := k + b[1];
    }
  }

  lemma SwapMod(s: nat, m: int, t: nat)
    requires t == 0x100 * s - 0xFFFF * m
    requires t == 0 <==> s == 0
    ensures Canon(t) == Swap16(Canon(s))
  {
    var c := Canon(s);
    var k := CanonSplit(s);
    assert 0x100 * c == Swap16(c) + 0xFFFF * (c / 0x100);
    assert Swap16(c) == 0 <==> c == 0;
    CanonUnique(t, Swap16(c), 0x100 * k + c / 0x100 - m);
  }

  lemma SwapOfComplement(c: word)
    ensures Swap16(Complement(c)) == Complement(Swap16(c))
  {
  }

  lemma SwappedOnesSum(b: seq<byte>)
    requires |b| % 2 == 0
    ensures OnesSum(Words(SwapBytes(b))) == Swap16(OnesSum(Words(b)))
  {
    var m := SwappedSum(b);
    SwapMod(Sum(Words(b)), m, Sum(Words(SwapBytes(b))));
    OnesSumIsCanon(Words(b));
    OnesSumIsCanon(Words(SwapBytes(b)));
  }

  /** Byte-order independence: swapping the bytes of every word of an even-length buffer
      swaps the bytes of its checksum. */
  lemma ByteOrderIndependence(b: seq<byte>)
    requires |b| % 2 == 0
    ensures Checksum16(SwapBytes(b)) == Swap16(Checksum16(b))
  {
    var c := OnesSum(Words(b));
    SwappedOnesSum(b);
    SwapOfComplement(c);
    assert Checksum16(SwapBytes(b)) == Complement(Swap16(c));
  }
}
