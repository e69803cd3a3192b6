/**
 * The Internet checksum of RFC 1071, section 1: the 16-bit one's-complement
 * sum of a buffer read as big-endian 16-bit words. `Sum` is the value the
 * views call `checksum::data`; it is returned uncomplemented, and the views
 * apply the bitwise NOT themselves.
 */
module InternetChecksum {
  import opened Wire

  /**
   * The plain (unbounded) total of the buffer's big-endian 16-bit words.
   * An odd trailing byte is the high byte of a last word whose low byte is zero.
   */
  function WordTotal(s: seq<u8>): nat
    decreases |s|
  {
    if |s| == 0 then 0
    else if |s| == 1 then (s[0] as int) * 0x100
    else (s[0] as int) * 0x100 + (s[1] as int) + WordTotal(s[2..])
  }

  /**
   * End-around carry: the bits above the low 16 are added back into the low
   * 16 until the value fits in a word. Folding keeps the value modulo 0xFFFF,
   * so it is the one's-complement reading of `n`; only zero folds to zero.
   */
  function Fold(n: nat): (r: u16)
    ensures r == 0 <==> n == 0
    ensures r % 0xFFFF == n % 0xFFFF
    decreases n
  {
    if n < 0x1_0000 then n
    else
      var high, low := n / 0x1_0000, n % 0x1_0000;
      assert n == high * 0x1_0000 + low;
      assert n - (high + low) == high * 0xFFFF;
      Fold(high + low)
  }

  /**
   * The one's-complement sum of the whole buffer, before complementing. It
   * agrees with the word total modulo 0xFFFF, and it is zero exactly for a
   * buffer of zero bytes (so one's-complement negative zero, 0xFFFF, is what a
   * non-zero buffer whose words cancel sums to).
   */
  function Sum(s: seq<u8>): (r: u16)
    ensures r % 0xFFFF == WordTotal(s) % 0xFFFF
    ensures r == 0 <==> forall i | 0 <= i < |s| :: s[i] == 0
  {
    WordTotalZero(s);
    Fold(WordTotal(s))
  }

  /** The word total is zero exactly when every byte is. */
  lemma {:induction false} WordTotalZero(s: seq<u8>)
    ensures WordTotal(s) == 0 <==> forall i | 0 <= i < |s| :: s[i] == 0
    decreases |s|
  {
    if |s| >= 2 {
      WordTotalZero(s[2..]);
      assert forall i | 2 <= i < |s| :: s[i] == s[2..][i - 2];
    }
  }

  /** Bitwise NOT of a 16-bit word (`!w` on `u16`). */
  function Not16(w: u16): (r: u16)
    ensures r + w == 0xFFFF
  {
    0xFFFF - w
  }

  /** Replacing the aligned word `k` changes the total by exactly the difference of the words. */
  lemma {:induction false} WordTotalPutWord(s: seq<u8>, k: nat, v: u16)
    requires 2 * k + 2 <= |s|
    ensures WordTotal(PutU16(s, 2 * k, v)) == WordTotal(s) - ReadU16(s, 2 * k) + v
  {
    var r := PutU16(s, 2 * k, v);
    if k == 0 {
      assert r[2..] == s[2..];
    } else {
      assert r[0] == s[0] && r[1] == s[1];
      assert r[2..] == PutU16(s[2..], 2 * (k - 1), v);
      WordTotalPutWord(s[2..], k - 1, v);
    }
  }

  /** Euclidean division by 0xFFFF: quotient and remainder rebuild the number. */
  lemma DivMod(n: int)
    ensures n == (n / 0xFFFF) * 0xFFFF + n % 0xFFFF && 0 <= n % 0xFFFF < 0xFFFF
  {
  }

  /** The remainder modulo 0xFFFF is the only one in range. */
  lemma ModUnique(n: int, q: int, r: int)
    requires n == q * 0xFFFF + r && 0 <= r < 0xFFFF
    ensures n % 0xFFFF == r
  {
  }

  /**
   * The generate/check identity of RFC 1071: when the aligned checksum word
   * at `off` holds zero, writing the complement of the sum there makes the sum
   * of the whole buffer all ones.
   */
  lemma ComplementCloses(s: seq<u8>, off: nat)
    requires off % 2 == 0 && off + 2 <= |s|
    requires ReadU16(s, off) == 0
    ensures Sum(PutU16(s, off, Not16(Sum(s)))) == 0xFFFF
  {
    var total := WordTotal(s);
    var c := Not16(Fold(total));
    assert Sum(s) == Fold(total);
    WordTotalPutWord(s, off / 2, c);
    assert WordTotal(PutU16(s, off, c)) == total + c;
    ComplementedTotal(total);
    FoldOfMultiple(total + c);
  }

  /** Adding the complement of its fold to a total gives a non-zero multiple of 0xFFFF. */
  lemma ComplementedTotal(total: nat)
    ensures total + Not16(Fold(total)) > 0
    ensures (total + Not16(Fold(total))) % 0xFFFF == 0
  {
    var f := Fold(total);
    DivMod(total);
    DivMod(f);
    ModUnique(total + Not16(f), total / 0xFFFF - f / 0xFFFF + 1, 0);
  }

  /**
   * The only words that bring a total to a non-zero multiple of 0xFFFF are
   * the complement of its fold and, when that complement is 0, its twin
   * 0xFFFF: the two encodings of one's-complement zero.
   */
  lemma ComplementUnique(rest: nat, w: u16)
    requires rest + w > 0 && (rest + w) % 0xFFFF == 0
    ensures w == Not16(Fold(rest)) || (Not16(Fold(rest)) == 0 && w == 0xFFFF)
  {
    var f := Fold(rest);
    DivMod(rest);
    DivMod(f);
    DivMod(rest + w);
    assert f + w == ((rest + w) / 0xFFFF - rest / 0xFFFF + f / 0xFFFF) * 0xFFFF;
  }

  /** A non-zero multiple of 0xFFFF folds to all ones, the one's-complement zero. */
  lemma FoldOfMultiple(n: nat)
    requires n > 0 && n % 0xFFFF == 0
    ensures Fold(n) == 0xFFFF
  {
    DivMod(Fold(n));
  }

  /** The weight of byte `i` in the word total: high bytes (even `i`) count 0x100, low bytes 1. */
  function Weight(i: nat): (w: nat)
    ensures w == 0x100 || w == 1
  {
    if i % 2 == 0 then 0x100 else 1
  }

  /** Changing one byte moves the word total by that byte's weight times the change. */
  lemma {:induction false} WordTotalSetByte(s: seq<u8>, i: nat, b: u8)
    requires i < |s|
    ensures WordTotal(s[i := b]) == WordTotal(s) + Weight(i) * (b - s[i])
  {
    var r := s[i := b];
    if i >= 2 {
      assert r[2..] == s[2..][i - 2 := b];
      WordTotalSetByte(s[2..], i - 2, b);
    } else if |s| >= 2 {
      assert r[2..] == s[2..];
    }
  }

  /** The changes of one byte that flipping a single one of its bits can make. */
  const SINGLE_BIT_CHANGES: set<int> :=
    {1, 2, 4, 8, 16, 32, 64, 128, -1, -2, -4, -8, -16, -32, -64, -128}

  /**
   * Flipping bit `k` of a byte, given as its eight bits `y`, changes its value
   * by one of `SINGLE_BIT_CHANGES`.
   */
  lemma BitFlipIsSingleBitChange(y: bv8, k: nat)
    requires k < 8
    ensures (y ^ ((1 as bv8) << k)) as int - y as int in SINGLE_BIT_CHANGES
  {
  }

  /**
   * Single-bit sensitivity: if a buffer's sum is all ones, flipping any one
   * bit of any byte makes it something else. The total was a multiple of
   * 0xFFFF and moves by between 1 and 0x8000, so it no longer is.
   */
  lemma SingleBitFlipBreaks(s: seq<u8>, i: nat, b: u8)
    requires i < |s| && Sum(s) == 0xFFFF
    requires b - s[i] in SINGLE_BIT_CHANGES
    ensures Sum(s[i := b]) != 0xFFFF
  {
    var total := WordTotal(s);
    WordTotalSetByte(s, i, b);
    assert Fold(total) == 0xFFFF;
    MovedOffMultiple(total, Weight(i), b - s[i]);
  }

  /**
   * A total that folds to all ones, moved by a single-bit change of one of its
   * bytes (the change times that byte's weight), no longer folds to all ones.
   */
  lemma MovedOffMultiple(total: nat, w: nat, c: int)
    requires Fold(total) == 0xFFFF
    requires w == 0x100 || w == 1
    requires c in SINGLE_BIT_CHANGES && total + w * c >= 0
    ensures Fold(total + w * c) != 0xFFFF
  {
    var d := w * c;
    assert 0 < d <= 0x8000 || -0x8000 <= d < 0;
    var moved := total + d;
    DivMod(total);
    if d > 0 {
      ModUnique(moved, total / 0xFFFF, d);
    } else {
      ModUnique(moved, total / 0xFFFF - 1, 0xFFFF + d);
    }
  }
}
