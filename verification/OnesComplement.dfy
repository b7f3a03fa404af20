/** Ones-complement arithmetic on 16-bit words, as section 1 of RFC 1071 defines the
    Internet checksum, and the facts that let a wider accumulator stand in for it. */
module OnesComplement {
  type byte = b: int | 0 <= b < 0x100
  type u16 = w: int | 0 <= w < 0x1_0000
  type u32 = w: int | 0 <= w < 0x1_0000_0000
  type u64 = w: int | 0 <= w < 0x1_0000_0000_0000_0000

  function Word(hi: byte, lo: byte): u16 {
    0x100 * (hi as int) + lo as int
  }

  /** 16-bit addition with end-around carry. */
  function Add16(a: u16, b: u16): u16 {
    var s := a + b;
    s % 0x1_0000 + s / 0x1_0000
  }

  /** The plain loop of RFC 1071: network-order words one at a time, an odd trailing
      byte padded with zero on the right, every carry taken around at once. */
  function Rfc1071(s: seq<byte>, acc: u16): u16 {
    if |s| == 0 then acc
    else if |s| == 1 then Add16(acc, Word(s[0], 0))
    else Rfc1071(s[2..], Add16(acc, Word(s[0], s[1])))
  }

  /** What a receiver computes over data that carries its own checksum. */
  function ChecksumOf(s: seq<byte>): u16 {
    0xFFFF - Rfc1071(s, 0)
  }

  function Swap16(w: u16): u16 {
    0x100 * (w % 0x100) + w / 0x100
  }

  /** The representative of v modulo 0xFFFF in 1..0xFFFF, except that 0 stands for itself
      only: the two representations of zero are kept apart. */
  function Norm(v: nat): u16 {
    if v == 0 then 0 else 1 + (v - 1) % 0xFFFF
  }

  /** Unbounded sum of the 16-bit words of s in the order a little-endian host reads them. */
  function WordSum(s: seq<byte>): nat {
    if |s| == 0 then 0
    else if |s| == 1 then s[0]
    else Word(s[1], s[0]) + WordSum(s[2..])
  }

  /** The number a little-endian host loads from s. */
  function LoadLe(s: seq<byte>): nat {
    if |s| == 0 then 0 else s[0] + 0x100 * LoadLe(s[1..])
  }

  lemma NormShift(v: nat, k: int)
    requires v > 0 && v + 0xFFFF * k > 0
    ensures Norm(v + 0xFFFF * k) == Norm(v)
  {
    var x := v - 1;
    var q := x / 0xFFFF;
    assert x + 0xFFFF * k == 0xFFFF * (q + k) + x % 0xFFFF;
  }

  /** Normalising early changes nothing, and tells the zeros apart. */
  lemma NormAdd(x: nat, y: nat)
    ensures Norm(Norm(x) + y) == Norm(x + y)
    ensures Norm(x) == 0 <==> x == 0
  {
    if x > 0 {
      var q := (x - 1) / 0xFFFF;
      assert x == 0xFFFF * q + Norm(x);
      NormShift(Norm(x) + y, q);
    }
  }

  lemma Add16IsNorm(a: u16, b: u16)
    ensures Add16(a, b) == Norm(a + b)
  {
    if a + b > 0xFFFF {
      NormShift(a + b, -1);
    }
  }

  /** Folding in halves of any width that is a whole number of words keeps the sum. */
  lemma NormFold(v: nat, m: nat, k: nat)
    requires m == 0xFFFF * k + 1 && m > 1
    ensures Norm(v % m + v / m) == Norm(v)
  {
    var q, r := v / m, v % m;
    assert v == q * m + r;
    assert q * m == 0xFFFF * (q * k) + q;
    if v > 0 {
      assert q + r > 0;
      NormShift(q + r, q * k);
    }
  }

  lemma Swap16Value(w: u16)
    ensures Swap16(w) == 0x100 * w - 0xFFFF * (w / 0x100)
  {}

  lemma Add16Value(a: u16, b: u16) returns (carry: nat)
    ensures Add16(a, b) == a + b - 0xFFFF * carry
  {
    carry := (a + b) / 0x1_0000;
  }

  /** A u16 that differs from v by whole multiples of 0xFFFF, and is 0 only with it, is Norm(v). */
  lemma NormIs(v: nat, w: u16, k: int)
    requires v == w + 0xFFFF * k && (w == 0 <==> v == 0)
    ensures Norm(v) == w
  {
    if w > 0 {
      NormShift(w, k);
    }
  }

  /** Byte-swapping distributes over end-around addition: section 2 (B) of RFC 1071. */
  lemma Swap16Add(a: u16, b: u16)
    ensures Add16(Swap16(a), Swap16(b)) == Swap16(Add16(a, b))
  {
    hide Norm, Swap16, Add16;
    Swap16Value(a);
    Swap16Value(b);
    Swap16Value(Add16(a, b));
    var carry := Add16Value(a, b);
    Add16IsNorm(Swap16(a), Swap16(b));
    Swap16Zero(a);
    Swap16Zero(b);
    Swap16Zero(Add16(a, b));
    Add16Zero(a, b);
    NormIs(Swap16(a) + Swap16(b), Swap16(Add16(a, b)),
           Add16(a, b) / 0x100 + 0x100 * carry - a / 0x100 - b / 0x100);
  }

  lemma Swap16Zero(w: u16)
    ensures Swap16(w) == 0 <==> w == 0
  {}

  lemma Add16Zero(a: u16, b: u16)
    ensures Add16(a, b) == 0 <==> a == 0 && b == 0
  {}

  lemma Swap16Word(hi: byte, lo: byte)
    ensures Swap16(Word(hi, lo)) == Word(lo, hi)
  {
    DivMod256(hi, lo);
  }

  lemma DivMod256(q: int, r: int)
    requires 0 <= r < 0x100
    ensures (0x100 * q + r) / 0x100 == q && (0x100 * q + r) % 0x100 == r
  {}

  lemma Swap16Twice(a: u16)
    ensures Swap16(Swap16(a)) == a
  {}

  lemma {:induction false} WordSumSplit(s: seq<byte>, n: nat)
    requires n <= |s| && n % 2 == 0
    ensures WordSum(s) == WordSum(s[..n]) + WordSum(s[n..])
  {
    if n == 0 {
      assert s[0..] == s;
    } else {
      WordSumSplit(s[2..], n - 2);
      assert s[2..][..n - 2] == s[..n][2..];
      assert s[2..][n - 2..] == s[n..];
    }
  }

  /** A lane of any width loaded whole is worth the sum of its 16-bit words. */
  lemma {:induction false} LaneIsWords(s: seq<byte>)
    ensures Norm(LoadLe(s)) == Norm(WordSum(s))
  {
    hide Norm, Word;
    if |s| >= 2 {
      var w, hi, rest := Word(s[1], s[0]), LoadLe(s[2..]), WordSum(s[2..]);
      LoadLeStep(s);
      LaneIsWords(s[2..]);
      LaneStep(w, hi, rest);
    } else if |s| == 1 {
      assert LoadLe(s[1..]) == 0;
    }
  }

  lemma LoadLeStep(s: seq<byte>)
    requires |s| >= 2
    ensures LoadLe(s) == Word(s[1], s[0]) + 0x1_0000 * LoadLe(s[2..])
  {
    assert s[1..][1..] == s[2..];
  }

  lemma LaneStep(w: nat, hi: nat, rest: nat)
    requires Norm(hi) == Norm(rest)
    ensures Norm(w + 0x1_0000 * hi) == Norm(w + rest)
  {
    if w + hi > 0 {
      NormShift(w + hi, hi);
    }
    NormAdd(hi, w);
    NormAdd(rest, w);
  }

  lemma {:induction false} LoadLeBound(s: seq<byte>)
    ensures |s| == 2 ==> LoadLe(s) < 0x1_0000
    ensures |s| == 4 ==> LoadLe(s) < 0x1_0000_0000
    ensures |s| == 8 ==> LoadLe(s) < 0x1_0000_0000_0000_0000
  {
    LoadLePow(s);
    assert Pow256(2) == 0x1_0000;
    assert Pow256(4) == 0x1_0000_0000 by { assert Pow256(4) == 0x100 * 0x100 * Pow256(2); }
    assert Pow256(8) == 0x1_0000_0000_0000_0000 by {
      assert Pow256(6) == 0x100 * 0x100 * Pow256(4);
      assert Pow256(8) == 0x100 * 0x100 * Pow256(6);
    }
  }

  function Pow256(n: nat): nat {
    if n == 0 then 1 else 0x100 * Pow256(n - 1)
  }

  lemma {:induction false} LoadLePow(s: seq<byte>)
    ensures LoadLe(s) < Pow256(|s|)
  {
    if |s| > 0 {
      LoadLePow(s[1..]);
    }
  }

  /** The host-order sum, byte-swapped, is the network-order sum of RFC 1071: exactly,
      for every content, length and starting value. */
  lemma {:induction false} HostSumIsRfc1071(s: seq<byte>, acc: u16)
    ensures Rfc1071(s, Swap16(acc)) == Swap16(Norm(acc + WordSum(s)))
  {
    hide Swap16, Norm, Add16, Word;
    if |s| == 0 {
      NormIs(acc, acc, 0);
    } else if |s| == 1 {
      HostStep(acc, Word(0, s[0]), 0);
      HostWord(0, s[0]);
      NormIs(Add16(acc, Word(0, s[0])), Add16(acc, Word(0, s[0])), 0);
    } else {
      HostStep(acc, Word(s[1], s[0]), WordSum(s[2..]));
      HostWord(s[1], s[0]);
      HostSumIsRfc1071(s[2..], Add16(acc, Word(s[1], s[0])));
    }
  }

  lemma HostWord(hi: byte, lo: byte)
    ensures Swap16(Word(hi, lo)) == Word(lo, hi) && Word(0, lo) == lo
  {
    Swap16Word(hi, lo);
  }

  lemma HostStep(acc: u16, w: u16, rest: nat)
    ensures Add16(Swap16(acc), Swap16(w)) == Swap16(Add16(acc, w))
    ensures Norm(Add16(acc, w) + rest) == Norm(acc + (w + rest))
  {
    hide Norm, Swap16, Add16;
    Swap16Add(acc, w);
    Add16IsNorm(acc, w);
    NormAdd(acc + w, rest);
  }

  /** Summing in consecutive pieces, all but the last of even length, is summing the whole. */
  lemma {:induction false} Rfc1071Concat(a: seq<byte>, b: seq<byte>, acc: u16)
    requires |a| % 2 == 0
    ensures Rfc1071(a + b, acc) == Rfc1071(b, Rfc1071(a, acc))
  {
    if |a| == 0 {
      assert a + b == b;
    } else {
      assert (a + b)[2..] == a[2..] + b;
      Rfc1071Concat(a[2..], b, Add16(acc, Word(a[0], a[1])));
    }
  }
}
