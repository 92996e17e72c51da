/**
 The consensus rules that judge a block against the chain below it
 (src/consensus/ProofOfWork.cpp). A rule is given the height it applies to and
 a sequence holding at least the blocks below that height; it reads no others.
 */
module Consensus {
  import opened Types

  const MINING_REWARD: u64 := 50

  function Pow2(n: nat): nat {
    if n == 0 then 1 else 2 * Pow2(n - 1)
  }

  lemma {:induction false} Pow2Grows(m: nat, n: nat)
    requires m <= n
    ensures Pow2(m) <= Pow2(n)
    decreases n - m
  {
    if m < n {
      Pow2Grows(m, n - 1);
    }
  }

  lemma {:induction false} Pow2Sum(m: nat, n: nat)
    ensures Pow2(m + n) == Pow2(m) * Pow2(n)
  {
    if m > 0 {
      Pow2Sum(m - 1, n);
      TwiceProduct(Pow2(m - 1), Pow2(n));
    }
  }

  lemma TwiceProduct(x: nat, y: nat)
    ensures (2 * x) * y == 2 * (x * y)
  {}

  // ---- Proof of work ----

  function ByteZeroBits(b: u8): (z: nat)
    ensures z <= 8
  {
    if b >= 128 then 0 else if b >= 64 then 1 else if b >= 32 then 2 else if b >= 16 then 3
    else if b >= 8 then 4 else if b >= 4 then 5 else if b >= 2 then 6 else if b >= 1 then 7 else 8
  }

  function ZeroBits(bytes: Bytes): nat {
    if bytes == [] then 0
    else if bytes[0] == 0 then 8 + ZeroBits(bytes[1..])
    else ByteZeroBits(bytes[0])
  }

  predicate MeetsTarget(h: Hash, difficulty: u32) {
    ZeroBits(h.bytes) >= difficulty
  }

  // The hash read as a number, most significant byte first.
  function BigEndian(bytes: Bytes): nat {
    if bytes == [] then 0 else bytes[0] * Pow2(8 * (|bytes| - 1)) + BigEndian(bytes[1..])
  }

  lemma {:induction false} BigEndianBound(bytes: Bytes)
    ensures BigEndian(bytes) < Pow2(8 * |bytes|)
  {
    hide Pow2;
    BytePowers();
    if bytes != [] {
      BigEndianBound(bytes[1..]);
      var unit := Pow2(8 * (|bytes| - 1));
      MulMonotone(bytes[0], 255, unit);
      Pow2Sum(8, 8 * (|bytes| - 1));
      assert 256 * unit == 255 * unit + unit;
    }
  }

  lemma BytePowers()
    ensures Pow2(0) == 1 && Pow2(1) == 2 && Pow2(2) == 4 && Pow2(3) == 8 && Pow2(4) == 16
    ensures Pow2(5) == 32 && Pow2(6) == 64 && Pow2(7) == 128 && Pow2(8) == 256
  {}

  lemma ByteBetweenPowers(b: u8)
    requires b > 0
    ensures ByteZeroBits(b) <= 7 && Pow2(7 - ByteZeroBits(b)) <= b < Pow2(8 - ByteZeroBits(b))
  {
    BytePowers();
    hide Pow2;
  }

  /** Leading zero bits are a bound on the number: a hash meets difficulty `d` exactly
      when it lies below 2^(bits - d), so each further bit halves the target. */
  lemma {:induction false} TargetIsBound(bytes: Bytes, d: nat)
    requires d <= 8 * |bytes|
    ensures ZeroBits(bytes) >= d <==> BigEndian(bytes) < Pow2(8 * |bytes| - d)
    decreases |bytes|
  {
    if bytes != [] {
      var n, rest := 8 * |bytes|, bytes[1..];
      var unit := Pow2(n - 8);
      BigEndianBound(rest);
      if bytes[0] == 0 {
        if d <= 8 {
          Pow2Grows(n - 8, n - d);
        } else {
          TargetIsBound(rest, d - 8);
        }
      } else {
        LeadingByte(bytes[0], BigEndian(rest), n, d);
      }
    } else {
      assert Pow2(0) == 1;
    }
  }

  lemma OneMore(b: nat, unit: nat)
    ensures (b + 1) * unit == b * unit + unit
  {}

  lemma LeadingByte(b: u8, rest: nat, n: nat, d: nat)
    requires b > 0 && n >= 8 && d <= n && rest < Pow2(n - 8)
    ensures ByteZeroBits(b) >= d <==> b * Pow2(n - 8) + rest < Pow2(n - d)
  {
    hide ByteZeroBits, Pow2;
    var z, unit := ByteZeroBits(b), Pow2(n - 8);
    ByteBetweenPowers(b);
    if d <= z {
      Pow2Sum(8 - z, n - 8);
      MulMonotone(b + 1, Pow2(8 - z), unit);
      OneMore(b, unit);
      Pow2Grows(n - z, n - d);
    } else {
      Pow2Sum(7 - z, n - 8);
      MulMonotone(Pow2(7 - z), b, unit);
      Pow2Grows(n - d, n - z - 1);
    }
  }

  // The node's two loops: bytes, and within a byte a mask moving down from the top bit.
  method CountMeetsTarget(h: Hash, difficulty: u32) returns (r: bool)
    ensures r == MeetsTarget(h, difficulty)
  {
    var count := 0;
    for i := 0 to |h.bytes|
      invariant count == 8 * i
      invariant ZeroBits(h.bytes) == count + ZeroBits(h.bytes[i..])
    {
      var zeros := LeadingZeros(h.bytes[i]);
      assert h.bytes[i..][0] == h.bytes[i] && h.bytes[i..][1..] == h.bytes[i + 1..];
      count := count + zeros;
      if zeros < 8 {
        return count >= difficulty;
      }
    }
    assert h.bytes[|h.bytes|..] == [];
    return count >= difficulty;
  }

  method LeadingZeros(b: u8) returns (z: nat)
    ensures z == ByteZeroBits(b)
  {
    z := 0;
    var mask := 128;
    while z < 8
      invariant z <= 8
      invariant z < 8 ==> mask == MaskAt(z)
      invariant z <= ByteZeroBits(b)
    {
      if (b / mask) % 2 != 0 {
        return;
      }
      z, mask := z + 1, mask / 2;
    }
  }

  function MaskAt(z: nat): nat
    requires z < 8
  {
    [128, 64, 32, 16, 8, 4, 2, 1][z]
  }

  // ---- Coinbase ----

  function Fees64(txs: seq<Transaction>): u64 {
    if txs == [] then 0 else Add64(Fees64(txs[..|txs| - 1]), txs[|txs| - 1].fee)
  }

  // Exactly one coinbase, at `k`.
  ghost predicate OnlyCoinbase(txs: seq<Transaction>, k: nat) {
    && k < |txs| && txs[k].sender == COINBASE
    && forall i :: 0 <= i < |txs| && i != k ==> txs[i].sender != COINBASE
  }

  /** `validate_coinbase_amount`: no coinbase at all, or a single one that claims at
      most the reward and the fees of the other transactions, both summed in 64 bits. */
  ghost predicate CoinbaseAmountOk(txs: seq<Transaction>) {
    || (forall i :: 0 <= i < |txs| ==> txs[i].sender != COINBASE)
    || (exists k: nat ::
          OnlyCoinbase(txs, k) && txs[k].amount <= Add64(MINING_REWARD, Fees64(txs[..k] + txs[k + 1..])))
  }

  method ValidateCoinbaseAmount(txs: seq<Transaction>) returns (ok: bool)
    ensures ok <==> CoinbaseAmountOk(txs)
  {
    hide Fees64;
    var found, index := false, 0;
    for i := 0 to |txs|
      invariant found ==> index < i && txs[index].sender == COINBASE
      invariant forall j :: 0 <= j < i && !(found && j == index) ==> txs[j].sender != COINBASE
    {
      if txs[i].sender == COINBASE {
        if found {
          assert forall k :: !OnlyCoinbase(txs, k);
          return false;
        }
        found, index := true, i;
      }
    }
    if !found {
      return true;
    }
    var total := FeesOfOthers(txs, index);
    assert forall k :: OnlyCoinbase(txs, k) <==> k == index;
    return txs[index].amount <= Add64(MINING_REWARD, total);
  }

  method FeesOfOthers(txs: seq<Transaction>, index: nat) returns (total: u64)
    requires index < |txs|
    ensures total == Fees64(txs[..index] + txs[index + 1..])
  {
    total := 0;
    for i := 0 to |txs|
      invariant total == Fees64(Others(txs, index, i))
    {
      OthersStep(txs, index, i);
      if i != index {
        total := Add64(total, txs[i].fee);
      }
    }
    assert Others(txs, index, |txs|) == txs[..index] + txs[index + 1..];
  }

  // The first `i` transactions, without the one at `k`.
  function Others(txs: seq<Transaction>, k: nat, i: nat): seq<Transaction>
    requires k < |txs| && i <= |txs|
  {
    if i <= k then txs[..i] else txs[..k] + txs[k + 1..i]
  }

  lemma OthersStep(txs: seq<Transaction>, k: nat, i: nat)
    requires k < |txs| && i < |txs|
    ensures Others(txs, k, i + 1) == if i == k then Others(txs, k, i) else Others(txs, k, i) + [txs[i]]
  {}

  // ---- Difficulty ----

  /** log2(expected / actual), rounded to the nearest integer and clamped to two
      bits either way, decided on integers: the tests are against the squares of
      the half-integer powers of two. */
  function Step(expected: nat, actual: nat): int {
    var e, a := expected * expected, actual * actual;
    if e >= 8 * a then 2
    else if e >= 2 * a then 1
    else if a > 8 * e then -2
    else if a > 2 * e then -1
    else 0
  }

  /** `d` is the integer nearest to log2(expected / actual): the square of the ratio
      lies between 2^(2d-1) and 2^(2d+1), written without fractions. */
  predicate NearestLog2(expected: nat, actual: nat, d: int) {
    var e, a := expected * expected, actual * actual;
    if d >= 0 then Pow2(2 * d) * a <= 2 * e && e < 2 * Pow2(2 * d) * a
    else a <= 2 * Pow2(-2 * d) * e && Pow2(-2 * d) * e < 2 * a
  }

  function Clamp(d: int): int {
    if d > 2 then 2 else if d < -2 then -2 else d
  }

  // The integer tests decide the clamped rounded logarithm.
  lemma StepIsRoundedLog2(expected: nat, actual: nat, d: int)
    requires NearestLog2(expected, actual, d)
    ensures Clamp(d) == Step(expected, actual)
  {
    var e, a := expected * expected, actual * actual;
    assert Pow2(2) == 4 && Pow2(3) == 8 && Pow2(4) == 16;
    if d >= 2 {
      Pow2Grows(4, 2 * d);
      MulMonotone(16, Pow2(2 * d), a);
    } else if d <= -2 {
      Pow2Grows(4, -2 * d);
      MulMonotone(16, Pow2(-2 * d), e);
    }
  }

  lemma MulMonotone(x: nat, y: nat, z: nat)
    requires x <= y
    ensures x * z <= y * z
  {}

  // Every positive ratio has a nearest power of two.
  lemma {:induction false} NearestLog2Exists(expected: nat, actual: nat)
    requires expected > 0 && actual > 0
    ensures exists d :: NearestLog2(expected, actual, d)
  {
    var e, a := expected * expected, actual * actual;
    assert e > 0 && a > 0;
    assert Pow2(0) == 1;
    if e >= 2 * a {
      var d := LargestPower(e, a, 0);
      assert NearestLog2(expected, actual, d);
    } else if a > 2 * e {
      var d: int := LeastPower(e, a, 0);
      assert NearestLog2(expected, actual, -d);
    } else {
      assert NearestLog2(expected, actual, 0);
    }
  }

  lemma {:induction false} LargestPower(e: nat, a: nat, from: nat) returns (d: nat)
    requires a > 0
    requires Pow2(2 * from) * a <= 2 * e
    ensures Pow2(2 * d) * a <= 2 * e && e < 2 * Pow2(2 * d) * a
    decreases 2 * e - Pow2(2 * from) * a
  {
    d := from;
    if e >= 2 * Pow2(2 * from) * a {
      assert Pow2(2 * from + 2) == 4 * Pow2(2 * from);
      PowerPositive(2 * from, a);
      d := LargestPower(e, a, from + 1);
    }
  }

  lemma {:induction false} LeastPower(e: nat, a: nat, from: nat) returns (d: nat)
    requires e > 0
    requires Pow2(2 * from) * e < 2 * a
    requires from == 0 ==> a > 2 * e
    ensures d > 0 && a <= 2 * Pow2(2 * d) * e && Pow2(2 * d) * e < 2 * a
    decreases 2 * a - Pow2(2 * from) * e
  {
    assert Pow2(0) == 1;
    if a <= 2 * Pow2(2 * from) * e {
      d := from;
    } else {
      assert Pow2(2 * from + 2) == 4 * Pow2(2 * from);
      PowerPositive(2 * from, e);
      d := LeastPower(e, a, from + 1);
    }
  }

  lemma {:induction false} PowerPositive(n: nat, x: nat)
    requires x > 0
    ensures Pow2(n) * x > 0
  {
    if n > 0 {
      PowerPositive(n - 1, x);
      assert Pow2(n) * x == 2 * (Pow2(n - 1) * x);
    }
  }

  function Retarget(difficulty: u32, actual: u64, expected: u64): u32 {
    if expected == 0 then difficulty
    else
      var step := Step(expected, if actual == 0 then 1 else actual);
      if step > 0 then (if difficulty + step >= LIMIT32 then LIMIT32 - 1 else difficulty + step)
      else if step < 0 then (if -step >= difficulty then 0 else difficulty + step)
      else difficulty
  }

  function NextDifficulty(height: nat, p: Params, chain: seq<Block>): u32
    requires height <= |chain|
  {
    var interval := p.retargetInterval;
    if interval < 2 || height <= interval then p.initialDifficulty
    else
      var parent := chain[height - 1].wire;
      if height % interval != 0 then parent.difficulty
      else
        var first := chain[height - interval].wire.timestamp;
        var actual := if parent.timestamp > first then parent.timestamp - first else 0;
        var expected := ((interval - 1) * p.targetBlockTime) % LIMIT64;
        var required := Retarget(parent.difficulty, actual, expected);
        if required < p.minDifficulty then p.minDifficulty else required
  }

  // Every block above genesis declares the difficulty its height requires.
  ghost predicate DifficultiesOk(p: Params, chain: seq<Block>) {
    forall h :: 1 <= h < |chain| ==> chain[h].wire.difficulty == NextDifficulty(h, p, chain)
  }

  lemma DivStep(h: nat, n: nat)
    requires h > 0 && n > 0
    ensures h / n == if h % n == 0 then (h - 1) / n + 1 else (h - 1) / n
  {
    var q, r := h / n, h % n;
    assert h == q * n + r;
    if r == 0 {
      assert h - 1 == (q - 1) * n + (n - 1);
      DivUnique(h - 1, n, q - 1, n - 1);
    } else {
      assert h - 1 == q * n + (r - 1);
      DivUnique(h - 1, n, q, r - 1);
    }
  }

  lemma DivUnique(x: int, n: nat, q: int, r: int)
    requires n > 0 && x == q * n + r && 0 <= r < n
    ensures x / n == q && x % n == r
  {
    var k, s := x / n, x % n;
    assert x == k * n + s;
    assert (q - k) * n == q * n - k * n && (k - q) * n == k * n - q * n;
    if k < q {
      MultipleAtLeast(q - k, n);
    } else if q < k {
      MultipleAtLeast(k - q, n);
    }
  }

  lemma MultipleAtLeast(k: nat, n: nat)
    requires k >= 1
    ensures k * n >= n
  {}

  function Max(x: int, y: int): int {
    if x >= y then x else y
  }

  // A difficulty cut to its 32 bits.
  function Saturated(d: int): int {
    if d < 0 then 0 else if d >= LIMIT32 then LIMIT32 - 1 else d
  }

  /** One adjustment moves the difficulty by the rounded logarithm of expected over actual
      time, two bits at most, within its 32-bit range; and not at all if nothing is expected. */
  lemma RetargetStep(difficulty: u32, actual: u64, expected: u64, d: int)
    ensures difficulty - 2 <= Retarget(difficulty, actual, expected) <= difficulty + 2
    ensures expected == 0 ==> Retarget(difficulty, actual, expected) == difficulty
    ensures expected > 0 && NearestLog2(expected, Max(1, actual), d) ==>
              Retarget(difficulty, actual, expected) == Saturated(difficulty + Clamp(d))
  {
    if expected > 0 && NearestLog2(expected, Max(1, actual), d) {
      StepIsRoundedLog2(expected, Max(1, actual), d);
    }
    hide NearestLog2;
  }

  /** The path of the difficulty along a valid chain: the initial value until height
      2N, then changes only at multiples of N, by at most two bits each, never below
      the floor and never above the initial value plus two bits per epoch. */
  lemma {:induction false} DifficultyPath(p: Params, chain: seq<Block>, h: nat)
    requires p.retargetInterval >= 2 && p.minDifficulty <= p.initialDifficulty
    requires 1 <= h < |chain| && DifficultiesOk(p, chain)
    ensures
      var n, d := p.retargetInterval, chain[h].wire.difficulty;
      && (h < 2 * n ==> d == p.initialDifficulty)
      && p.minDifficulty <= d <= p.initialDifficulty + 2 * (h / n)
      && (h >= 2 ==>
            var before := chain[h - 1].wire.difficulty;
            && before - 2 <= d <= before + 2
            && (d != before ==> h % n == 0 && h >= 2 * n))
    decreases h
  {
    hide NextDifficulty;
    var n := p.retargetInterval;
    RequiredDifficulty(p, chain, h);
    if h >= 2 {
      DifficultyPath(p, chain, h - 1);
      DivStep(h, n);
    }
  }

  // What the rule requires at one height, in terms of the parent's difficulty.
  lemma RequiredDifficulty(p: Params, chain: seq<Block>, h: nat)
    requires 1 <= h <= |chain|
    ensures
      var n, d := p.retargetInterval, NextDifficulty(h, p, chain);
      var before := chain[h - 1].wire.difficulty;
      && (n < 2 || h <= n ==> d == p.initialDifficulty)
      && (2 <= n < h && h % n != 0 ==> d == before)
      && (2 <= n < h && h % n == 0 ==> h >= 2 * n && p.minDifficulty <= d)
      && (2 <= n < h && p.minDifficulty <= before ==> before - 2 <= d <= before + 2)
      && (2 <= n < h < 2 * n ==> h % n != 0)
  {
    var n := p.retargetInterval;
    if 2 <= n < h < 2 * n {
      DivUnique(h, n, 1, h - n);
    }
    if 2 <= n < h {
      var first, last := chain[h - n].wire.timestamp, chain[h - 1].wire.timestamp;
      RetargetStep(chain[h - 1].wire.difficulty, if last > first then last - first else 0,
                   ((n - 1) * p.targetBlockTime) % LIMIT64, 0);
    }
    hide Retarget;
  }

  // The time the N blocks below `h` should take from the first to the last, in 64 bits.
  function TimeExpected(p: Params): int {
    ((p.retargetInterval - 1) * p.targetBlockTime) % LIMIT64
  }

  // The time they did take, at least one second.
  function TimeTaken(p: Params, chain: seq<Block>, h: nat): nat
    requires 1 <= p.retargetInterval < h <= |chain|
  {
    Max(1, chain[h - 1].wire.timestamp - chain[h - p.retargetInterval].wire.timestamp)
  }

  /** The adjustment at a multiple of N: the parent's difficulty moved by the rounded
      logarithm of expected over taken time, two bits at most, cut to 32 bits and raised to
      the floor; where no time is expected, the parent's difficulty raised to the floor. */
  lemma AdjustedDifficulty(p: Params, chain: seq<Block>, h: nat, d: int)
    requires 2 <= p.retargetInterval < h <= |chain| && h % p.retargetInterval == 0
    ensures
      var required, before := NextDifficulty(h, p, chain), chain[h - 1].wire.difficulty;
      && (TimeExpected(p) == 0 ==> required == Max(p.minDifficulty, before))
      && (TimeExpected(p) > 0 && NearestLog2(TimeExpected(p), TimeTaken(p, chain, h), d) ==>
            required == Max(p.minDifficulty, Saturated(before + Clamp(d))))
  {
    hide NearestLog2, Retarget;
    var first, last := chain[h - p.retargetInterval].wire.timestamp, chain[h - 1].wire.timestamp;
    RetargetStep(chain[h - 1].wire.difficulty, if last > first then last - first else 0, TimeExpected(p), d);
  }

  /** Which way it moves: up, unless already at the top, exactly when the blocks came at
      least sqrt(2) times too fast; down to no less than the floor exactly when they came
      more than sqrt(2) times too slowly. */
  lemma PaceDecides(p: Params, chain: seq<Block>, h: nat)
    requires 2 <= p.retargetInterval < h <= |chain| && h % p.retargetInterval == 0 && TimeExpected(p) > 0
    requires p.minDifficulty <= chain[h - 1].wire.difficulty
    ensures
      var required, before := NextDifficulty(h, p, chain), chain[h - 1].wire.difficulty;
      var e, t := TimeExpected(p) * TimeExpected(p), TimeTaken(p, chain, h) * TimeTaken(p, chain, h);
      && (required > before <==> e >= 2 * t && before < LIMIT32 - 1)
      && (required < before <==> t > 2 * e && before > p.minDifficulty)
  {
    var d :| NearestLog2(TimeExpected(p), TimeTaken(p, chain, h), d) by {
      NearestLog2Exists(TimeExpected(p), TimeTaken(p, chain, h));
    }
    AdjustedDifficulty(p, chain, h, d);
    StepIsRoundedLog2(TimeExpected(p), TimeTaken(p, chain, h), d);
    hide NearestLog2, NextDifficulty;
  }

  // ---- Timestamps ----

  function Timestamps(blocks: seq<Block>): seq<u64> {
    if blocks == [] then []
    else Timestamps(blocks[..|blocks| - 1]) + [blocks[|blocks| - 1].wire.timestamp]
  }

  function Insert(t: u64, sorted: seq<u64>): seq<u64> {
    if sorted == [] || t <= sorted[0] then [t] + sorted
    else [sorted[0]] + Insert(t, sorted[1..])
  }

  function Sort(ts: seq<u64>): seq<u64> {
    if ts == [] then [] else Insert(ts[|ts| - 1], Sort(ts[..|ts| - 1]))
  }

  function WindowStart(height: nat, window: nat): nat {
    if height > window then height - window else 0
  }

  function MedianTimePast(height: nat, window: nat, chain: seq<Block>): u64
    requires height <= |chain|
  {
    if height == 0 || window == 0 then 0
    else
      var sorted := Sort(Timestamps(chain[WindowStart(height, window)..height]));
      if |sorted| / 2 < |sorted| then sorted[|sorted| / 2] else 0
  }

  predicate TimestampOk(b: Block, height: nat, now: u64, p: Params, chain: seq<Block>)
    requires height <= |chain|
  {
    && !(b.wire.timestamp > now && b.wire.timestamp - now > p.maxFutureDrift)
    && b.wire.timestamp > MedianTimePast(height, p.mtpWindow, chain)
  }

  // The node's computation: collect the window's timestamps, sort them, take the middle one.
  method ComputeMedianTimePast(height: nat, window: nat, chain: seq<Block>) returns (m: u64)
    requires height <= |chain|
    ensures m == MedianTimePast(height, window, chain)
  {
    if height == 0 || window == 0 {
      return 0;
    }
    var start := if height > window then height - window else 0;
    var timestamps: seq<u64> := [];
    for i := start to height
      invariant timestamps == Timestamps(chain[start..i])
    {
      assert chain[start..i + 1][..i - start] == chain[start..i];
      timestamps := timestamps + [chain[i].wire.timestamp];
    }
    var sorted := Sort(timestamps);
    SortProperties(timestamps, 0);
    TimestampsLength(chain[start..height]);
    return sorted[|sorted| / 2];
  }

  method CheckTimestamp(b: Block, height: nat, now: u64, p: Params, chain: seq<Block>) returns (ok: bool)
    requires height <= |chain|
    ensures ok == TimestampOk(b, height, now, p, chain)
    ensures ok <==> MedianTimePast(height, p.mtpWindow, chain) < b.wire.timestamp <= now + p.maxFutureDrift
  {
    if b.wire.timestamp > now && b.wire.timestamp - now > p.maxFutureDrift {
      return false;
    }
    var median := ComputeMedianTimePast(height, p.mtpWindow, chain);
    return b.wire.timestamp > median;
  }

  // How many of `ts` lie below `m`.
  function Below(ts: seq<u64>, m: int): nat {
    if ts == [] then 0
    else Below(ts[..|ts| - 1], m) + if ts[|ts| - 1] < m then 1 else 0
  }

  ghost predicate Sorted(ts: seq<u64>) {
    forall i, j :: 0 <= i < j < |ts| ==> ts[i] <= ts[j]
  }

  function BelowFront(ts: seq<u64>, m: int): nat {
    if ts == [] then 0
    else (if ts[0] < m then 1 else 0) + BelowFront(ts[1..], m)
  }

  lemma {:induction false} InsertSorts(t: u64, s: seq<u64>, m: int)
    requires Sorted(s)
    ensures Sorted(Insert(t, s)) && |Insert(t, s)| == |s| + 1
    ensures BelowFront(Insert(t, s), m) == BelowFront(s, m) + if t < m then 1 else 0
    ensures forall x :: x in Insert(t, s) ==> x == t || x in s
  {
    if !(s == [] || t <= s[0]) {
      InsertSorts(t, s[1..], m);
      var rest := Insert(t, s[1..]);
      assert Insert(t, s) == [s[0]] + rest;
      forall j | 0 <= j < |rest| ensures s[0] <= rest[j] {
        assert rest[j] in rest;
      }
    }
  }

  // Sorting keeps the length and, for every `m`, the number of entries below it.
  lemma {:induction false} SortProperties(ts: seq<u64>, m: int)
    ensures Sorted(Sort(ts)) && |Sort(ts)| == |ts|
    ensures BelowFront(Sort(ts), m) == Below(ts, m)
  {
    if ts != [] {
      SortProperties(ts[..|ts| - 1], m);
      InsertSorts(ts[|ts| - 1], Sort(ts[..|ts| - 1]), m);
    }
  }

  // In a sorted sequence, entry `k` reaches `m` iff at most `k` entries lie below `m`.
  lemma {:induction false} OrderStatistic(s: seq<u64>, k: nat, m: int)
    requires Sorted(s) && k < |s|
    ensures s[k] >= m <==> BelowFront(s, m) <= k
  {
    if s[0] < m {
      if k > 0 {
        OrderStatistic(s[1..], k - 1, m);
      }
    } else {
      NoneBelow(s, m);
    }
  }

  lemma {:induction false} NoneBelow(s: seq<u64>, m: int)
    requires forall i :: 0 <= i < |s| ==> s[i] >= m
    ensures BelowFront(s, m) == 0
  {
    if s != [] {
      NoneBelow(s[1..], m);
    }
  }

  lemma {:induction false} TimestampsLength(blocks: seq<Block>)
    ensures |Timestamps(blocks)| == |blocks|
  {
    if blocks != [] {
      TimestampsLength(blocks[..|blocks| - 1]);
    }
  }

  // How many of the window's timestamps lie below `m`.
  function Early(chain: seq<Block>, lo: nat, hi: nat, m: int): nat
    requires lo <= hi <= |chain|
    decreases hi
  {
    if lo == hi then 0
    else Early(chain, lo, hi - 1, m) + if chain[hi - 1].wire.timestamp < m then 1 else 0
  }

  lemma {:induction false} EarlyIsBelow(chain: seq<Block>, lo: nat, hi: nat, m: int)
    requires lo <= hi <= |chain|
    ensures Early(chain, lo, hi, m) == Below(Timestamps(chain[lo..hi]), m)
    decreases hi - lo
  {
    if lo < hi {
      var w := chain[lo..hi];
      assert w[..|w| - 1] == chain[lo..hi - 1];
      EarlyIsBelow(chain, lo, hi - 1, m);
    }
  }

  lemma {:induction false} EarlyDropFirst(chain: seq<Block>, lo: nat, hi: nat, m: int)
    requires lo < hi <= |chain|
    ensures Early(chain, lo + 1, hi, m) <= Early(chain, lo, hi, m)
    decreases hi - lo
  {
    if lo + 1 < hi {
      EarlyDropFirst(chain, lo, hi - 1, m);
    }
  }

  /** The median as an order statistic: it reaches `m` iff at most half of the
      window's timestamps (rounded down) lie below `m`. */
  lemma MedianReaches(height: nat, window: nat, chain: seq<Block>, m: int)
    requires 1 <= height <= |chain| && window >= 1
    ensures
      var start := if height > window then height - window else 0;
      MedianTimePast(height, window, chain) >= m
      <==> Early(chain, start, height, m) <= (height - start) / 2
  {
    var start := WindowStart(height, window);
    var ts := Timestamps(chain[start..height]);
    TimestampsLength(chain[start..height]);
    SortProperties(ts, m);
    EarlyIsBelow(chain, start, height, m);
    OrderStatistic(Sort(ts), |ts| / 2, m);
  }

  // Every block above genesis is later than the median of the blocks below it.
  ghost predicate TimestampsOk(p: Params, chain: seq<Block>) {
    forall h :: 1 <= h < |chain| ==> chain[h].wire.timestamp > MedianTimePast(h, p.mtpWindow, chain)
  }

  lemma ZeroWindow(h: nat, chain: seq<Block>)
    requires h <= |chain|
    ensures MedianTimePast(h, 0, chain) == 0
  {}

  lemma MedianStep(p: Params, chain: seq<Block>, h: nat)
    requires 1 <= h < |chain|
    requires chain[h].wire.timestamp > MedianTimePast(h, p.mtpWindow, chain)
    ensures MedianTimePast(h + 1, p.mtpWindow, chain) >= MedianTimePast(h, p.mtpWindow, chain)
  {
    hide MedianTimePast;
    if p.mtpWindow == 0 {
      ZeroWindow(h, chain);
    } else {
      var m := MedianTimePast(h, p.mtpWindow, chain);
      var start := WindowStart(h, p.mtpWindow);
      MedianReaches(h, p.mtpWindow, chain, m);
      MedianReaches(h + 1, p.mtpWindow, chain, m);
      EarlyDropFirst(chain, start, h + 1, m);
    }
  }

  /** Median time past never decreases along a valid chain, while the window is
      still growing and once it is full. */
  lemma {:induction false} MedianNeverDecreases(p: Params, chain: seq<Block>, i: nat, j: nat)
    requires 1 <= i <= j <= |chain| && TimestampsOk(p, chain)
    ensures MedianTimePast(i, p.mtpWindow, chain) <= MedianTimePast(j, p.mtpWindow, chain)
    decreases j - i
  {
    hide MedianTimePast;
    if i < j {
      MedianNeverDecreases(p, chain, i, j - 1);
      MedianStep(p, chain, j - 1);
    }
  }

  lemma {:induction false} NoneEarly(chain: seq<Block>, lo: nat, hi: nat, m: int)
    requires lo <= hi <= |chain|
    requires forall i :: lo <= i < hi ==> chain[i].wire.timestamp >= m
    ensures Early(chain, lo, hi, m) == 0
    decreases hi - lo
  {
    if lo < hi {
      NoneEarly(chain, lo, hi - 1, m);
    }
  }

  // After a whole window of further blocks the median has strictly advanced.
  lemma MedianAdvances(p: Params, chain: seq<Block>, h: nat)
    requires p.mtpWindow >= 1
    requires 1 <= h && h + p.mtpWindow <= |chain| && TimestampsOk(p, chain)
    ensures MedianTimePast(h + p.mtpWindow, p.mtpWindow, chain) > MedianTimePast(h, p.mtpWindow, chain)
  {
    hide MedianTimePast;
    var m, hi := MedianTimePast(h, p.mtpWindow, chain), h + p.mtpWindow;
    forall i | h <= i < hi ensures chain[i].wire.timestamp >= m + 1 {
      MedianNeverDecreases(p, chain, h, i);
    }
    NoneEarly(chain, h, hi, m + 1);
    MedianReaches(hi, p.mtpWindow, chain, m + 1);
  }

  // ---- The rules read only the blocks below the height ----

  ghost predicate SameBelow(chain: seq<Block>, other: seq<Block>, height: nat) {
    height <= |chain| && height <= |other| && forall i :: 0 <= i < height ==> chain[i].wire == other[i].wire
  }

  lemma {:induction false} SameTimestamps(s: seq<Block>, t: seq<Block>)
    requires |s| == |t| && forall i :: 0 <= i < |s| ==> s[i].wire == t[i].wire
    ensures Timestamps(s) == Timestamps(t)
  {
    if s != [] {
      SameTimestamps(s[..|s| - 1], t[..|t| - 1]);
    }
  }

  lemma RulesReadBelow(p: Params, chain: seq<Block>, other: seq<Block>, height: nat)
    requires SameBelow(chain, other, height)
    ensures NextDifficulty(height, p, chain) == NextDifficulty(height, p, other)
    ensures MedianTimePast(height, p.mtpWindow, chain) == MedianTimePast(height, p.mtpWindow, other)
  {
    var start := WindowStart(height, p.mtpWindow);
    SameTimestamps(chain[start..height], other[start..height]);
  }
}
