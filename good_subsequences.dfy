/** examples/count_good_subsequences.py: `Solution.countGoodSubsequences`.
    For every non-empty set of distinct letters, picked by the bits of a
    mask, it adds the ways of taking the same number `k` of occurrences of
    each letter of the set, for every `k` up to the rarest letter's count,
    modulo 10^9 + 7. */
module GoodSubsequences {
  import opened Wrappers

  /** `mod = 10 ** 9 + 7`. */
  const Modulus: int := 1_000_000_007

  /** The bit loop looks at `range(32)`. */
  const Width: nat := 32

  /** `2 ** n`. */
  function Pow2(n: nat): (r: nat)
    ensures r >= 1
  {
    if n == 0 then 1 else 2 * Pow2(n - 1)
  }

  lemma {:induction false} Pow2Grows(a: nat, b: nat)
    requires a <= b
    ensures Pow2(a) <= Pow2(b)
    decreases b
  {
    if a < b {
      Pow2Grows(a, b - 1);
    }
  }

  lemma Pow2Below(a: nat, b: nat)
    requires a < b
    ensures Pow2(a) < Pow2(b)
  {
    Pow2Grows(a + 1, b);
  }

  /** `counts[c]` for `counts = Counter(s)`. */
  function Count(s: string, c: char): nat
  {
    multiset(s)[c]
  }

  /** `list(Counter(s).keys())`: every letter of `s` once, in the order of
      first occurrence. */
  function Distinct(s: string): (d: seq<char>)
    ensures forall c :: c in d <==> c in s
    ensures forall i, j :: 0 <= i < j < |d| ==> d[i] != d[j]
  {
    if s == [] then []
    else
      var init := s[..|s| - 1];
      assert s == init + [s[|s| - 1]];
      var d := Distinct(init);
      if s[|s| - 1] in d then d else d + [s[|s| - 1]]
  }

  /** `math.comb(n, k)`, by Pascal's rule; it is 0 when `k > n`. */
  function Comb(n: nat, k: nat): nat
  {
    if k == 0 then 1
    else if n == 0 then 0
    else Comb(n - 1, k - 1) + Comb(n - 1, k)
  }

  // ---------------------------------------------------------------------
  // Bits of the mask
  // ---------------------------------------------------------------------

  /** `x >> i` on a non-negative integer: halve `i` times. */
  function ShiftRight(x: nat, i: nat): nat
  {
    if i == 0 then x else ShiftRight(x / 2, i - 1)
  }

  /** `(mask >> i) & 1` is set. */
  predicate Bit(mask: nat, i: nat)
  {
    ShiftRight(mask, i) % 2 == 1
  }

  /** `d` copies of at least one `k` make at least `d`. */
  lemma {:induction false} MulAtLeast(d: nat, k: nat)
    requires k >= 1
    ensures d * k >= d
  {
    if k > 1 {
      MulAtLeast(d, k - 1);
      assert d * k == d * (k - 1) + d;
    }
  }

  /** Euclidean division has one quotient. */
  lemma DivUnique(x: int, d: int, q: int, r: int)
    requires d > 0 && x == d * q + r && 0 <= r < d
    ensures x / d == q
  {
    var q' := x / d;
    var r' := x % d;
    assert x == d * q' + r';
    if q > q' {
      MulAtLeast(d, q - q');
    } else if q' > q {
      MulAtLeast(d, q' - q);
    }
  }

  lemma DivHalf(x: nat, p: nat)
    requires p >= 1
    ensures (x / 2) / p == x / (2 * p)
  {
    var q := x / 2;
    var t := q / p;
    assert x == 2 * q + x % 2;
    assert q == p * t + q % p;
    assert x == (2 * p) * t + (2 * (q % p) + x % 2);
    DivUnique(x, 2 * p, t, 2 * (q % p) + x % 2);
  }

  /** Shifting right by `i` is floor division by `2 ** i`. */
  lemma {:induction false} ShiftIsDivision(x: nat, i: nat)
    ensures ShiftRight(x, i) == x / Pow2(i)
  {
    if i > 0 {
      ShiftIsDivision(x / 2, i - 1);
      DivHalf(x, Pow2(i - 1));
    }
  }

  /** A mask below `2 ** n` has no bit at or past `n`. */
  lemma {:induction false} HighBitClear(mask: nat, n: nat, i: nat)
    requires mask < Pow2(n) && n <= i
    ensures !Bit(mask, i)
  {
    if i > 0 {
      HighBitClear(mask / 2, if n == 0 then 0 else n - 1, i - 1);
    }
  }

  /** A mask below `2 ** n` picks only letters among the first `n`. */
  lemma BitInRange(mask: nat, n: nat, i: nat)
    requires mask < Pow2(n) && Bit(mask, i)
    ensures i < n
  {
    if n <= i {
      HighBitClear(mask, n, i);
    }
  }

  /** `2 ** a` has no bit below `a`. */
  lemma {:induction false} PowerLowBitsClear(a: nat, i: nat)
    requires i < a
    ensures !Bit(Pow2(a), i)
  {
    if i > 0 {
      PowerLowBitsClear(a - 1, i - 1);
    }
  }

  /** Mask `2 ** a` picks nothing among the letters of bits below `a`. */
  lemma PowerPicksNothing(letters: seq<char>, a: nat)
    requires Pow2(a) < Pow2(|letters|)
    ensures Chosen(letters, Pow2(a), a) == []
  {
    forall j | 0 <= j < a ensures !Bit(Pow2(a), j) {
      PowerLowBitsClear(a, j);
    }
    ChosenEmpty(letters, Pow2(a), a);
  }

  /** A positive mask below `2 ** i` has some bit below `i`. */
  lemma {:induction false} SomeLowBit(mask: nat, i: nat) returns (j: nat)
    requires 1 <= mask < Pow2(i)
    ensures j < i && Bit(mask, j)
  {
    if mask % 2 == 1 {
      j := 0;
    } else {
      var k := SomeLowBit(mask / 2, i - 1);
      j := k + 1;
    }
  }

  // ---------------------------------------------------------------------
  // One mask
  // ---------------------------------------------------------------------

  /** `current_letter_set` once the bits below `i` were looked at. */
  function Chosen(letters: seq<char>, mask: nat, i: nat): (group: seq<char>)
    requires mask < Pow2(|letters|)
    ensures forall x :: x in group ==> x in letters
  {
    if i == 0 then []
    else
      var before := Chosen(letters, mask, i - 1);
      if Bit(mask, i - 1) then
        BitInRange(mask, |letters|, i - 1);
        before + [letters[i - 1]]
      else before
  }

  /** The letter set is empty exactly when no bit below `i` is set. */
  lemma {:induction false} ChosenEmpty(letters: seq<char>, mask: nat, i: nat)
    requires mask < Pow2(|letters|)
    ensures Chosen(letters, mask, i) == [] <==> forall j :: 0 <= j < i ==> !Bit(mask, j)
  {
    if i > 0 {
      ChosenEmpty(letters, mask, i - 1);
    }
  }

  /** No letter occurs twice, as in the keys of a `Counter`. */
  predicate Unique(letters: seq<char>)
  {
    forall i, j :: 0 <= i < j < |letters| ==> letters[i] != letters[j]
  }

  /** Two numbers below `2 ** n` with the same low `n` bits are equal. */
  lemma {:induction false} SameBits(a: nat, b: nat, n: nat)
    requires a < Pow2(n) && b < Pow2(n)
    requires forall j :: 0 <= j < n ==> (Bit(a, j) <==> Bit(b, j))
    ensures a == b
  {
    if n > 0 {
      forall j | 0 <= j < n - 1 ensures Bit(a / 2, j) <==> Bit(b / 2, j) {
        assert ShiftRight(a, j + 1) == ShiftRight(a / 2, j);
        assert ShiftRight(b, j + 1) == ShiftRight(b / 2, j);
        assert Bit(a, j + 1) <==> Bit(b, j + 1);
      }
      SameBits(a / 2, b / 2, n - 1);
      assert Bit(a, 0) <==> Bit(b, 0);
    }
  }

  /** With no letter repeated, the letter at index `j` is in the set after
      the bits below `i` were looked at exactly when `j < i` and bit `j` of
      the mask is set. */
  lemma {:induction false} ChosenHas(letters: seq<char>, mask: nat, i: nat, j: nat)
    requires Unique(letters) && mask < Pow2(|letters|) && j < |letters|
    ensures letters[j] in Chosen(letters, mask, i) <==> j < i && Bit(mask, j)
  {
    if i > 0 {
      ChosenHas(letters, mask, i - 1, j);
      if Bit(mask, i - 1) {
        BitInRange(mask, |letters|, i - 1);
        assert letters[j] == letters[i - 1] <==> j == i - 1;
      }
    }
  }

  /** Different masks pick different letter sets: the set of letters a mask
      picks determines the mask, so no subset is visited twice. */
  lemma ChosenDetermines(letters: seq<char>, m1: nat, m2: nat)
    requires Unique(letters) && |letters| <= Width
    requires m1 < Pow2(|letters|) && m2 < Pow2(|letters|)
    requires forall x :: x in Chosen(letters, m1, Width) <==> x in Chosen(letters, m2, Width)
    ensures m1 == m2
  {
    forall j | 0 <= j < |letters| ensures Bit(m1, j) <==> Bit(m2, j) {
      ChosenHas(letters, m1, Width, j);
      ChosenHas(letters, m2, Width, j);
    }
    SameBits(m1, m2, |letters|);
  }

  /** The mask whose bit `j` is set exactly when `letters[j]` is in `group`. */
  function MaskFor(letters: seq<char>, group: set<char>): (m: nat)
    ensures m < Pow2(|letters|)
  {
    if letters == [] then 0
    else (if letters[0] in group then 1 else 0) + 2 * MaskFor(letters[1..], group)
  }

  lemma {:induction false} MaskForBits(letters: seq<char>, group: set<char>, j: nat)
    requires j < |letters|
    ensures Bit(MaskFor(letters, group), j) <==> letters[j] in group
  {
    var rest := MaskFor(letters[1..], group);
    assert MaskFor(letters, group) / 2 == rest;
    if j > 0 {
      MaskForBits(letters[1..], group, j - 1);
      assert ShiftRight(MaskFor(letters, group), j) == ShiftRight(rest, j - 1);
    }
  }

  /** Every non-empty set of the letters is picked by some mask of the loop
      `range(1, 2 ** len(letters))`, once the letters fit the 32-bit scan. */
  lemma EveryGroupChosen(letters: seq<char>, group: set<char>)
    requires Unique(letters) && |letters| <= Width
    requires group != {} && forall x :: x in group ==> x in letters
    ensures var m := MaskFor(letters, group);
      && 1 <= m < Pow2(|letters|)
      && forall x :: x in Chosen(letters, m, Width) <==> x in group
  {
    var m := MaskFor(letters, group);
    forall x ensures x in Chosen(letters, m, Width) <==> x in group {
      if x in letters {
        var j :| 0 <= j < |letters| && letters[j] == x;
        ChosenHas(letters, m, Width, j);
        MaskForBits(letters, group, j);
      }
    }
    var x :| x in group;
    var j :| 0 <= j < |letters| && letters[j] == x;
    MaskForBits(letters, group, j);
    if m == 0 {
      ZeroShift(j);
    }
  }

  /** The mask loop over the distinct letters of `s` visits each non-empty
      set of them exactly once, when there are at most 32. */
  lemma MasksVisitEachGroupOnce(s: string, group: set<char>)
    requires |Distinct(s)| <= Width
    requires group != {} && forall x :: x in group ==> x in s
    ensures var d := Distinct(s);
      var m := MaskFor(d, group);
      && 1 <= m < Pow2(|d|)
      && (forall x :: x in Chosen(d, m, Width) <==> x in group)
      && forall m' :: 1 <= m' < Pow2(|d|) && m' != m ==>
           exists x :: x in Chosen(d, m', Width) <==> x !in group
  {
    var d := Distinct(s);
    EveryGroupChosen(d, group);
    var m := MaskFor(d, group);
    forall m' | 1 <= m' < Pow2(|d|) && m' != m
      ensures exists x :: x in Chosen(d, m', Width) <==> x !in group
    {
      if forall x :: x in Chosen(d, m', Width) <==> x in group {
        ChosenDetermines(d, m, m');
      }
    }
  }

  /** `smallest_freq` once the letters of `group` were taken: `None` stands for
      `float("inf")`; otherwise it is the smallest count of a letter of
      `group`. */
  function Smallest(s: string, group: seq<char>): (r: Option<nat>)
    ensures r.None? <==> group == []
    ensures r.Some? ==> forall x :: x in group ==> r.value <= Count(s, x)
    ensures r.Some? ==> exists x :: x in group && r.value == Count(s, x)
  {
    if group == [] then None
    else
      var init := group[..|group| - 1];
      var last := group[|group| - 1];
      assert group == init + [last];
      var m := Smallest(s, init);
      var c := Count(s, last);
      Some(if m.None? || c < m.value then c else m.value)
  }

  /** `result` after the letter loop for size `k`: the product, over the
      letters of `group` that occur at least `k` times, of their
      `comb(count, k) % mod`. */
  function Ways(s: string, group: seq<char>, k: nat): int
  {
    if group == [] then 1
    else
      var c := Count(s, group[|group| - 1]);
      Ways(s, group[..|group| - 1], k) * (if c >= k then Comb(c, k) % Modulus else 1)
  }

  /** What the `for k` loop adds for sizes `1..f`. */
  function SizeSum(s: string, group: seq<char>, f: nat): int
  {
    if f == 0 then 0 else SizeSum(s, group, f - 1) + Ways(s, group, f) % Modulus
  }

  /** What one mask adds to `ans`: a single letter adds
      `(2 ** count - 1) % mod`, a larger set sums over `k`; an empty set
      fails, as `int(float("inf"))` raises `OverflowError`. */
  function Contribution(s: string, group: seq<char>): (r: Option<int>)
    ensures r.None? <==> group == []
  {
    if |group| == 1 then Some((Pow2(Count(s, group[0])) - 1) % Modulus)
    else
      match Smallest(s, group)
      case None => None
      case Some(f) => Some(SizeSum(s, group, f))
  }

  // ---------------------------------------------------------------------
  // All masks
  // ---------------------------------------------------------------------

  /** `ans` after the masks `1..m - 1`, or `None` once one of them failed. */
  function Sweep(s: string, letters: seq<char>, m: nat): Option<int>
    requires m <= Pow2(|letters|)
  {
    if m <= 1 then Some(0)
    else
      match Sweep(s, letters, m - 1)
      case None => None
      case Some(a) =>
        match Contribution(s, Chosen(letters, m - 1, Width))
        case None => None
        case Some(c) => Some(a + c)
  }

  /** The value `countGoodSubsequences(s)` returns, or `None` when it raises. */
  function GoodCount(s: string): (r: Option<int>)
    ensures r.Some? ==> 0 <= r.value < Modulus
  {
    var letters := Distinct(s);
    match Sweep(s, letters, Pow2(|letters|))
    case None => None
    case Some(a) => Some(a % Modulus)
  }

  /** `countGoodSubsequences(s)`. */
  method CountGoodSubsequences(s: string) returns (r: Option<int>)
    ensures r == GoodCount(s)
  {
    var uniqueLetters := Distinct(s);
    var ans := 0;
    var limit := Pow2(|uniqueLetters|);
    var bitMask := 1;
    while bitMask < limit
      invariant 1 <= bitMask <= limit
      invariant Sweep(s, uniqueLetters, bitMask) == Some(ans)
      decreases limit - bitMask
    {
      var add := MaskContribution(s, uniqueLetters, bitMask);
      if add.None? {
        assert Sweep(s, uniqueLetters, bitMask + 1).None?;
        SweepStops(s, uniqueLetters, bitMask + 1, limit);
        assert GoodCount(s).None?;
        return None;
      }
      SweepNext(s, uniqueLetters, bitMask, ans, add.value);
      ans := ans + add.value;
      bitMask := bitMask + 1;
    }
    assert bitMask == limit;
    assert GoodCount(s) == Some(ans % Modulus);
    return Some(ans % Modulus);
  }

  /** One more mask adds its contribution to the run so far. */
  lemma SweepNext(s: string, letters: seq<char>, m: nat, a: int, c: int)
    requires 1 <= m < Pow2(|letters|) && Sweep(s, letters, m) == Some(a)
    requires Contribution(s, Chosen(letters, m, Width)) == Some(c)
    ensures Sweep(s, letters, m + 1) == Some(a + c)
  {
  }

  /** The body of the mask loop: what `bit_mask` adds to `ans`, or `None`
      where it raises. */
  method MaskContribution(s: string, letters: seq<char>, mask: nat) returns (add: Option<int>)
    requires mask < Pow2(|letters|)
    ensures add == Contribution(s, Chosen(letters, mask, Width))
  {
    var letterSet, smallestFreq := PickLetters(s, letters, mask);
    if |letterSet| == 1 {
      return Some((Pow2(Count(s, letterSet[0])) - 1) % Modulus);
    }
    if smallestFreq.None? {
      return None;
    }
    var total := 0;
    var k := 1;
    while k < smallestFreq.value + 1
      invariant 1 <= k <= smallestFreq.value + 1
      invariant total == SizeSum(s, letterSet, k - 1)
    {
      var result := WaysOfSize(s, letterSet, k);
      total := total + result % Modulus;
      k := k + 1;
    }
    return Some(total);
  }

  /** The `for i in range(32)` loop: the letters whose bits are set, and
      the smallest of their counts. */
  method PickLetters(s: string, letters: seq<char>, mask: nat) returns (group: seq<char>, smallest: Option<nat>)
    requires mask < Pow2(|letters|)
    ensures group == Chosen(letters, mask, Width) && smallest == Smallest(s, group)
  {
    var current := mask;
    group := [];
    smallest := None;
    var i := 0;
    while i < Width
      invariant 0 <= i <= Width
      invariant group == Chosen(letters, mask, i) && smallest == Smallest(s, group)
    {
      if ShiftRight(current, i) % 2 == 1 {
        BitInRange(mask, |letters|, i);
        var c := Count(s, letters[i]);
        ghost var init := group;
        group := group + [letters[i]];
        assert group[..|group| - 1] == init;
        smallest := Some(if smallest.None? || c < smallest.value then c else smallest.value);
      }
      i := i + 1;
    }
  }

  /** The `for letter in current_letter_set` loop. */
  method WaysOfSize(s: string, group: seq<char>, k: nat) returns (result: int)
    ensures result == Ways(s, group, k)
  {
    result := 1;
    var j := 0;
    while j < |group|
      invariant 0 <= j <= |group|
      invariant result == Ways(s, group[..j], k)
    {
      var letter := group[j];
      assert group[..j + 1][..j] == group[..j];
      if Count(s, letter) >= k {
        var ways := Comb(Count(s, letter), k);
        result := result * (ways % Modulus);
      }
      j := j + 1;
    }
    assert group[..j] == group;
  }

  /** Once a mask failed, the whole run fails. */
  lemma {:induction false} SweepStops(s: string, letters: seq<char>, m: nat, n: nat)
    requires m <= n <= Pow2(|letters|) && Sweep(s, letters, m).None?
    ensures Sweep(s, letters, n).None?
    decreases n - m
  {
    if m < n {
      SweepStops(s, letters, m + 1, n);
    }
  }

  /** With no mask failing below `m`, the run so far succeeds. */
  lemma {:induction false} SweepGoesOn(s: string, letters: seq<char>, m: nat)
    requires m <= Pow2(|letters|)
    requires forall k :: 1 <= k < m ==> Chosen(letters, k, Width) != []
    ensures Sweep(s, letters, m).Some?
  {
    if m > 1 {
      SweepGoesOn(s, letters, m - 1);
    }
  }

  // ---------------------------------------------------------------------
  // Properties
  // ---------------------------------------------------------------------

  /** The function raises exactly when `s` has more than 32 distinct
      letters: mask `2 ** 32` then picks no letter (the loop looks at 32
      bits only) and `int(float("inf"))` overflows; with at most 32 letters
      every mask picks one. */
  lemma GoodCountFails(s: string)
    ensures GoodCount(s).None? <==> |Distinct(s)| > 32
  {
    var letters := Distinct(s);
    if |letters| > Width {
      WideMaskFails(s, letters);
    } else {
      NarrowMasksSucceed(s, letters);
    }
  }

  /** Past 32 letters, mask `2 ** 32` picks nothing and the run fails. */
  lemma WideMaskFails(s: string, letters: seq<char>)
    requires |letters| > Width
    ensures Sweep(s, letters, Pow2(|letters|)).None?
  {
    var m := Pow2(Width);
    Pow2Below(Width, |letters|);
    PowerPicksNothing(letters, Width);
    SweepFailsAt(s, letters, m);
  }

  /** A mask that picks no letter fails the run. */
  lemma SweepFailsAt(s: string, letters: seq<char>, m: nat)
    requires 1 <= m < Pow2(|letters|) && Chosen(letters, m, Width) == []
    ensures Sweep(s, letters, Pow2(|letters|)).None?
  {
    assert Sweep(s, letters, m + 1).None?;
    SweepStops(s, letters, m + 1, Pow2(|letters|));
  }

  /** Up to 32 letters, every mask picks some letter and the run succeeds. */
  lemma NarrowMasksSucceed(s: string, letters: seq<char>)
    requires |letters| <= Width
    ensures Sweep(s, letters, Pow2(|letters|)).Some?
  {
    Pow2Grows(|letters|, Width);
    forall k | 1 <= k < Pow2(|letters|) ensures Chosen(letters, k, Width) != [] {
      var j := SomeLowBit(k, Width);
      ChosenEmpty(letters, k, Width);
    }
    SweepGoesOn(s, letters, Pow2(|letters|));
  }

  /** The empty string has no non-empty letter group, so the answer is 0. */
  lemma EmptyString()
    ensures GoodCount("") == Some(0)
  {
  }

  /** `sum(comb(n, k) for k in range(m + 1))`. */
  function RowSum(n: nat, m: nat): nat
  {
    if m == 0 then Comb(n, 0) else RowSum(n, m - 1) + Comb(n, m)
  }

  lemma {:induction false} CombPastN(n: nat, k: nat)
    requires k > n
    ensures Comb(n, k) == 0
  {
    if n > 0 {
      CombPastN(n - 1, k - 1);
      CombPastN(n - 1, k);
    }
  }

  /** Pascal's rule summed along a row. */
  lemma {:induction false} RowSumPascal(n: nat, m: nat)
    requires n >= 1
    ensures RowSum(n, m) == RowSum(n - 1, m) + (if m == 0 then 0 else RowSum(n - 1, m - 1))
  {
    if m > 0 {
      RowSumPascal(n, m - 1);
    }
  }

  /** The subsets of `n` things, counted by size, are `2 ** n`. */
  lemma {:induction false} RowSumIsPower(n: nat)
    ensures RowSum(n, n) == Pow2(n)
  {
    if n > 0 {
      RowSumIsPower(n - 1);
      RowSumPascal(n, n);
      CombPastN(n - 1, n);
      assert RowSum(n - 1, n) == RowSum(n - 1, n - 1);
    }
  }

  /** Adding a number or its remainder gives the same remainder. */
  lemma AddRemainder(a: int, b: int, a': int)
    requires a % Modulus == a' % Modulus
    ensures (a + b % Modulus) % Modulus == (a' + b) % Modulus
  {
    var i := a / Modulus;
    var j := a' / Modulus;
    var k := b / Modulus;
    assert a == Modulus * i + a % Modulus;
    assert a' == Modulus * j + a % Modulus;
    assert b == Modulus * k + b % Modulus;
    assert a' + b == (a + b % Modulus) + Modulus * (j + k - i);
  }

  /** What the `for k` loop would add for a one-letter set: the sizes
      `1..m` of a letter counted `c` times, each reduced modulo `mod`. */
  lemma {:induction false} SingleSizeSum(s: string, x: char, m: nat)
    requires m <= Count(s, x)
    ensures SizeSum(s, [x], m) % Modulus == (RowSum(Count(s, x), m) - 1) % Modulus
  {
    if m > 0 {
      SingleSizeSum(s, x, m - 1);
      var c := Count(s, x);
      var w := Comb(c, m) % Modulus;
      assert Ways(s, [x], m) == w;
      assert w % Modulus == w;
      assert SizeSum(s, [x], m) == SizeSum(s, [x], m - 1) + w;
      AddRemainder(SizeSum(s, [x], m - 1), Comb(c, m), RowSum(c, m - 1) - 1);
      assert RowSum(c, m) - 1 == RowSum(c, m - 1) - 1 + Comb(c, m);
    }
  }

  /** The shortcut for a one-letter set agrees, modulo `mod`, with the sum
      over sizes that larger sets use: `2 ** c - 1` ways to take a
      non-empty group of one letter. */
  lemma SingletonAgrees(s: string, x: char)
    requires x in s
    ensures Contribution(s, [x]) == Some(SizeSum(s, [x], Count(s, x)) % Modulus)
  {
    var c := Count(s, x);
    SingleSizeSum(s, x, c);
    RowSumIsPower(c);
  }

  /** `x * n`: the letter `x` repeated `n` times. */
  function Repeat(x: char, n: nat): (s: string)
    ensures |s| == n
  {
    if n == 0 then [] else Repeat(x, n - 1) + [x]
  }

  /** A string of one letter repeated `n` times has `2 ** n - 1` good
      subsequences. */
  lemma OneLetter(x: char, n: nat)
    requires n >= 1
    ensures GoodCount(Repeat(x, n)) == Some((Pow2(n) - 1) % Modulus)
  {
    OnlyLetter(x, n);
    SingleLetterCount(Repeat(x, n), x, n);
  }

  /** With one distinct letter only mask 1 runs, and it takes the shortcut. */
  lemma SingleLetterCount(s: string, x: char, n: nat)
    requires Distinct(s) == [x] && Count(s, x) == n
    ensures GoodCount(s) == Some((Pow2(n) - 1) % Modulus)
  {
    var letters := Distinct(s);
    ChosenOne(letters, Width);
    var c := (Pow2(n) - 1) % Modulus;
    assert Contribution(s, [x]) == Some(c);
    assert Sweep(s, letters, Pow2(|letters|)) == Some(0 + c);
    assert ((Pow2(n) - 1) % Modulus) % Modulus == (Pow2(n) - 1) % Modulus;
  }

  /** Such a string has one distinct letter, counted `n` times. */
  lemma {:induction false} OnlyLetter(x: char, n: nat)
    requires n >= 1
    ensures Distinct(Repeat(x, n)) == [x] && Count(Repeat(x, n), x) == n
  {
    var s := Repeat(x, n);
    var init := Repeat(x, n - 1);
    assert s == init + [x];
    assert s[..|s| - 1] == init;
    assert multiset(s) == multiset(init) + multiset{x};
    if n > 1 {
      OnlyLetter(x, n - 1);
    } else {
      assert init == [];
    }
  }

  /** Mask 1 picks the first letter alone. */
  lemma {:induction false} ChosenOne(letters: seq<char>, i: nat)
    requires |letters| >= 1 && i >= 1
    ensures Chosen(letters, 1, i) == [letters[0]]
  {
    if i > 1 {
      ChosenOne(letters, i - 1);
      assert !Bit(1, i - 1) by {
        assert ShiftRight(1, i - 1) == 0 by {
          ZeroShift(i - 2);
        }
      }
    }
  }

  lemma {:induction false} ZeroShift(i: nat)
    ensures ShiftRight(0, i) == 0
  {
    if i > 0 {
      ZeroShift(i - 1);
    }
  }
}
