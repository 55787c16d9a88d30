/** Hardware counters in a telemetry region: little-endian words, bit slices, and the
    traffic between two readings of a counter that wraps. */
module PmtCounters {
  import opened Text

  newtype byte = x: int | 0 <= x < 256

  function Power(base: nat, n: nat): (r: nat)
    requires base > 0
    ensures r > 0
  {
    if n == 0 then 1 else base * Power(base, n - 1)
  }

  function LittleEndian(bytes: seq<byte>): nat {
    if bytes == [] then 0 else bytes[0] as nat + 256 * LittleEndian(bytes[1..])
  }

  // read_bits; None where the region is too short.
  function ReadBits(buf: seq<byte>, offset: nat, msb: nat, lsb: nat): Option<nat> {
    if |buf| < offset + 8 then None
    else Some(LittleEndian(buf[offset..offset + 8]) % Power(2, msb + 1) / Power(2, lsb))
  }

  // What the hardware stores of a number in n bytes.
  function Stored(v: nat, n: nat): (r: seq<byte>)
    ensures |r| == n
  {
    if n == 0 then [] else [(v % 256) as byte] + Stored(v / 256, n - 1)
  }

  lemma {:induction false} StoredIsRead(v: nat, n: nat)
    ensures LittleEndian(Stored(v, n)) == v % Power(256, n)
  {
    if n > 0 {
      StoredIsRead(v / 256, n - 1);
      assert Stored(v, n)[1..] == Stored(v / 256, n - 1);
      SplitOff(v, Power(256, n - 1));
    }
  }

  lemma SplitOff(v: nat, m: nat)
    requires m > 0
    ensures v % (256 * m) == v % 256 + 256 * (v / 256 % m)
  {
    var q, r := v / 256 / m, v / 256 % m;
    assert v == 256 * (q * m + r) + v % 256;
    assert 256 * (q * m) == q * (256 * m);
    Remainder(v, 256 * m, q, 256 * r + v % 256);
  }

  lemma Remainder(v: nat, m: nat, q: nat, r: nat)
    requires 0 <= r < m && v == q * m + r
    ensures v % m == r
  {
    var d := v / m - q;
    assert v == (v / m) * m + v % m;
    assert d * m == r - v % m by {
      Distributes(v / m, q, m);
    }
    if d >= 1 {
      Scale(1, d, m);
    } else if d <= -1 {
      Scale(d, -1, m);
    }
  }

  lemma Distributes(a: int, b: int, m: int)
    ensures (a - b) * m == a * m - b * m
  {
  }

  lemma Scale(a: int, b: int, m: int)
    requires a <= b && m > 0
    ensures a * m <= b * m
  {
  }

  const WORD: nat := 0x1_0000_0000_0000_0000
  const HALF: nat := 0x1_0000_0000

  // The counter at an offset has counted this much in all.
  predicate Holds(buf: seq<byte>, offset: nat, total: nat) {
    offset + 8 <= |buf| && buf[offset..offset + 8] == Stored(total, 8)
  }

  lemma Powers()
    ensures Power(256, 8) == Power(2, 64) == WORD && Power(2, 32) == HALF && Power(2, 0) == 1
  {
    PowerAdds(2, 32, 32);
    PowerAdds(2, 16, 16);
    PowerAdds(2, 8, 8);
    assert Power(2, 4) == 16;
    PowerAdds(2, 4, 4);
    PowerAdds(256, 4, 4);
    PowerAdds(256, 2, 2);
    assert Power(256, 2) == 65536;
  }

  lemma {:induction false} PowerAdds(base: nat, m: nat, n: nat)
    requires base > 0
    ensures Power(base, m + n) == Power(base, m) * Power(base, n)
  {
    if m > 0 {
      PowerAdds(base, m - 1, n);
      assert m + n - 1 == m - 1 + n;
      Regroup(base, Power(base, m - 1), Power(base, n));
    }
  }

  lemma Regroup(a: int, b: int, c: int)
    ensures (a * b) * c == a * (b * c)
  {
  }

  // A full container gives the count modulo 2^64, its low half the count modulo 2^32.
  lemma CounterReads(buf: seq<byte>, offset: nat, total: nat)
    requires Holds(buf, offset, total)
    ensures ReadBits(buf, offset, 63, 0) == Some(total % WORD)
    ensures ReadBits(buf, offset, 31, 0) == Some(total % HALF)
  {
    hide Power, LittleEndian;
    Powers();
    StoredIsRead(total, 8);
    var q := total / WORD;
    Remainder(total, HALF, q * HALF + total % WORD / HALF, total % WORD % HALF);
  }

  // --------------------------------------------------------------- wrapped differences

  function Delta(prev: nat, cur: nat, modulus: nat): (r: nat)
    requires modulus > 0
  {
    (cur - prev) % modulus
  }

  lemma DeltaOfTotals(before: nat, after: nat, modulus: nat)
    requires modulus > 0 && before <= after
    ensures Delta(before % modulus, after % modulus, modulus) == (after - before) % modulus
    ensures (after - before) % modulus <= after - before
    ensures (after - before) % modulus == after - before <==> after - before < modulus
  {
    Difference(after, before, modulus);
    ModShift(after / modulus - before / modulus, after % modulus - before % modulus, modulus);
    ModSmall(after - before, modulus);
  }

  lemma Difference(a: int, b: int, m: nat)
    requires m > 0
    ensures a - b == (a / m - b / m) * m + (a % m - b % m)
  {
    Distributes(a / m, b / m, m);
  }

  lemma ModSmall(x: nat, m: nat)
    requires m > 0
    ensures x % m <= x && (x % m == x <==> x < m)
  {
  }

  lemma ModShift(k: int, x: int, m: nat)
    requires m > 0
    ensures (k * m + x) % m == x % m
  {
    var v := k * m + x;
    var d := v / m - k - x / m;
    assert d * m == x % m - v % m by {
      Distributes(v / m, k, m);
      Distributes(v / m - k, x / m, m);
    }
    if d >= 1 {
      Scale(1, d, m);
    } else if d <= -1 {
      Scale(d, -1, m);
    }
  }

  predicate Rising(totals: seq<nat>) {
    forall i :: 0 < i < |totals| ==> totals[i - 1] <= totals[i]
  }

  // The wrapped differences of what the counter showed, added up.
  function Counted(totals: seq<nat>, modulus: nat): nat
    requires modulus > 0
  {
    if |totals| < 2 then 0
    else
      var n := |totals| - 1;
      Counted(totals[..n], modulus) + Delta(totals[n - 1] % modulus, totals[n] % modulus, modulus)
  }

  // The differences add up to the true traffic exactly when no single interval carried a
  // whole wrap; how often the counter wrapped over the run does not matter.
  lemma {:induction false} DifferencesAddUp(totals: seq<nat>, modulus: nat)
    requires modulus > 0 && totals != [] && Rising(totals)
    ensures totals[0] <= totals[|totals| - 1]
    ensures Counted(totals, modulus) <= totals[|totals| - 1] - totals[0]
    ensures Counted(totals, modulus) == totals[|totals| - 1] - totals[0]
      <==> forall i :: 0 < i < |totals| ==> totals[i] - totals[i - 1] < modulus
  {
    hide Delta;
    var n := |totals| - 1;
    if n > 0 {
      DifferencesAddUp(totals[..n], modulus);
      DeltaOfTotals(totals[n - 1], totals[n], modulus);
      assert totals[..n][n - 1] == totals[n - 1];
    }
  }
}
