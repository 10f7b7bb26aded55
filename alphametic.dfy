/** examples/LC1307_word_arithmetic_problem.py: `Solution.isSolvable`, a
    backtracking search for a letter-to-digit assignment under which the
    words add up to the result. The search works column by column on the
    reversed words; the closure state of the nested `solve` (the `assignment`
    dict and the `used_digits` list) is the class `WordSum`. */
module Alphametic {
  import opened Wrappers

  // ---------------------------------------------------------------------
  // The puzzle and its assignments
  // ---------------------------------------------------------------------

  /** What `solve` reads from the enclosing call: the reversed words, the
      reversed result, the letters that may not be 0, and the column count. */
  datatype Puzzle = Puzzle(words: seq<string>, result: string, leading: set<char>, maxLen: nat)

  /** No word, and not the result, is longer than `maxLen`. */
  predicate WellFormed(p: Puzzle)
  {
    |p.result| <= p.maxLen && forall j :: 0 <= j < |p.words| ==> |p.words[j]| <= p.maxLen
  }

  /** No two letters share a digit. */
  predicate Injective(a: map<char, int>)
  {
    forall x, y :: x in a && y in a && x != y ==> a[x] != a[y]
  }

  /** A letter assignment the puzzle admits: distinct decimal digits, and no
      leading letter set to 0. */
  predicate Good(leading: set<char>, a: map<char, int>)
  {
    && Injective(a)
    && (forall x :: x in a ==> 0 <= a[x] <= 9)
    && (forall x :: x in a && x in leading ==> a[x] != 0)
  }

  /** `b` keeps every choice of `a`. */
  predicate Extends(a: map<char, int>, b: map<char, int>)
  {
    forall x :: x in a ==> x in b && b[x] == a[x]
  }

  /** Every letter of `s` has a digit. */
  predicate Spelled(s: string, a: map<char, int>)
  {
    forall i :: 0 <= i < |s| ==> s[i] in a
  }

  /** Every letter of the puzzle has a digit. */
  predicate Full(p: Puzzle, a: map<char, int>)
  {
    Spelled(p.result, a) && forall j :: 0 <= j < |p.words| ==> Spelled(p.words[j], a)
  }

  /** The letters `solve` has settled when it reaches word `wi` of `column`:
      every letter of the earlier columns, and this column's letters of the
      earlier words. */
  predicate Ready(p: Puzzle, column: int, wi: int, a: map<char, int>)
  {
    && 0 <= column <= p.maxLen && 0 <= wi <= |p.words|
    && (forall j, i :: 0 <= j < |p.words| && 0 <= i < |p.words[j]| && (i < column || (i == column && j < wi))
          ==> p.words[j][i] in a)
    && (forall i :: 0 <= i < |p.result| && i < column ==> p.result[i] in a)
  }

  /** This column's letters of the given words all have digits. */
  predicate ColumnAssigned(ws: seq<string>, a: map<char, int>, column: int)
  {
    forall j :: 0 <= j < |ws| && 0 <= column < |ws[j]| ==> ws[j][column] in a
  }

  /** The digit a word contributes to a column: 0 past its end. */
  function ColumnDigit(s: string, a: map<char, int>, column: int): int
    requires 0 <= column < |s| ==> s[column] in a
  {
    if 0 <= column < |s| then a[s[column]] else 0
  }

  /** The sum of the digits the words have in one column. */
  function ColumnSum(ws: seq<string>, a: map<char, int>, column: int): int
    requires ColumnAssigned(ws, a, column)
  {
    if ws == [] then 0
    else ColumnSum(ws[..|ws| - 1], a, column) + ColumnDigit(ws[|ws| - 1], a, column)
  }

  // ---------------------------------------------------------------------
  // solve, on values
  // ---------------------------------------------------------------------

  /** `solve(column, word_index, carry)` started with the assignment `a`. */
  function Search(p: Puzzle, column: int, wi: int, carry: int, a: map<char, int>): bool
    requires WellFormed(p) && Ready(p, column, wi, a)
    decreases p.maxLen - column, |p.words| - wi, 11
  {
    if column == p.maxLen then carry == 0
    else if wi == |p.words| then
      var total := carry + ColumnSum(p.words, a, column);
      var digit := total % 10;
      var newCarry := total / 10;
      if column < |p.result| then
        var ch := p.result[column];
        if ch in a then
          a[ch] == digit && Search(p, column + 1, 0, newCarry, a)
        else if digit in a.Values then false
        else if digit == 0 && ch in p.leading then false
        else
          ReadyColumn(p, column, a, a[ch := digit]);
          Search(p, column + 1, 0, newCarry, a[ch := digit])
      else
        ReadyColumn(p, column, a, a);
        digit == 0 && Search(p, column + 1, 0, newCarry, a)
    else
      var w := p.words[wi];
      if column >= |w| || w[column] in a then
        ReadyWord(p, column, wi, a, a);
        Search(p, column, wi + 1, carry, a)
      else
        TryDigits(p, column, wi, carry, a, w[column], 0)
  }

  /** The `for digit in range(10)` loop of `solve` from `d` on, for the
      unassigned letter `ch` of word `wi`. */
  function TryDigits(p: Puzzle, column: int, wi: int, carry: int, a: map<char, int>, ch: char, d: int): bool
    requires WellFormed(p) && Ready(p, column, wi, a)
    requires wi < |p.words| && column < |p.words[wi]| && ch == p.words[wi][column] && ch !in a
    requires 0 <= d <= 10
    decreases p.maxLen - column, |p.words| - wi, 10 - d
  {
    if d == 10 then false
    else if d in a.Values || (d == 0 && ch in p.leading) then
      TryDigits(p, column, wi, carry, a, ch, d + 1)
    else
      ReadyWord(p, column, wi, a, a[ch := d]);
      Search(p, column, wi + 1, carry, a[ch := d]) || TryDigits(p, column, wi, carry, a, ch, d + 1)
  }

  /** Settling this column's letter of word `wi` moves on to the next word. */
  lemma ReadyWord(p: Puzzle, column: int, wi: int, a: map<char, int>, b: map<char, int>)
    requires Ready(p, column, wi, a) && wi < |p.words| && Extends(a, b)
    requires column < |p.words[wi]| ==> p.words[wi][column] in b
    ensures Ready(p, column, wi + 1, b)
  {
  }

  /** Settling the result's letter of a finished column moves on to the next
      column. */
  lemma ReadyColumn(p: Puzzle, column: int, a: map<char, int>, b: map<char, int>)
    requires Ready(p, column, |p.words|, a) && column < p.maxLen && Extends(a, b)
    requires column < |p.result| ==> p.result[column] in b
    ensures Ready(p, column + 1, 0, b)
  {
  }

  // ---------------------------------------------------------------------
  // Column addition with a complete assignment
  // ---------------------------------------------------------------------

  /** The digit of the result in a column: 0 past its end. */
  function ResultDigit(p: Puzzle, b: map<char, int>, column: int): int
    requires Spelled(p.result, b)
  {
    ColumnDigit(p.result, b, column)
  }

  /** Schoolbook addition from `column` on, with `carry` coming in: each
      column's digits and carry end in the result's digit, and nothing is
      carried out of the last column. */
  function Columns(p: Puzzle, b: map<char, int>, column: int, carry: int): bool
    requires WellFormed(p) && Full(p, b) && 0 <= column <= p.maxLen
    decreases p.maxLen - column
  {
    if column == p.maxLen then carry == 0
    else
      var total := carry + ColumnSum(p.words, b, column);
      total % 10 == ResultDigit(p, b, column) && Columns(p, b, column + 1, total / 10)
  }

  /** The number a reversed word spells from position `c` on (its lowest
      digit first). */
  function Tail(s: string, b: map<char, int>, c: nat): int
    requires Spelled(s, b)
    decreases |s| - c
  {
    if c >= |s| then 0 else b[s[c]] + 10 * Tail(s, b, c + 1)
  }

  /** The sum of the numbers the reversed words spell from position `c` on. */
  function SumTails(ws: seq<string>, b: map<char, int>, c: nat): int
    requires forall j :: 0 <= j < |ws| ==> Spelled(ws[j], b)
  {
    if ws == [] then 0 else SumTails(ws[..|ws| - 1], b, c) + Tail(ws[|ws| - 1], b, c)
  }

  /** The words' numbers from column `c` on split into the column's digit sum
      and ten times the rest. */
  lemma {:induction false} SumTailsStep(ws: seq<string>, b: map<char, int>, c: nat)
    requires forall j :: 0 <= j < |ws| ==> Spelled(ws[j], b)
    ensures ColumnAssigned(ws, b, c)
    ensures SumTails(ws, b, c) == ColumnSum(ws, b, c) + 10 * SumTails(ws, b, c + 1)
  {
    if ws != [] {
      var init := ws[..|ws| - 1];
      assert forall j :: 0 <= j < |init| ==> init[j] == ws[j];
      SumTailsStep(init, b, c);
    }
  }

  /** Past every word's end nothing is left of the sum. */
  lemma {:induction false} SumTailsPastEnd(ws: seq<string>, b: map<char, int>, c: nat)
    requires forall j :: 0 <= j < |ws| ==> Spelled(ws[j], b) && |ws[j]| <= c
    ensures SumTails(ws, b, c) == 0
  {
    if ws != [] {
      var init := ws[..|ws| - 1];
      assert forall j :: 0 <= j < |init| ==> init[j] == ws[j];
      SumTailsPastEnd(init, b, c);
    }
  }

  /** Division by ten of a number written as `r + 10 * q` with a digit `r`. */
  lemma DivModTen(total: int, q: int, r: int)
    requires 0 <= r < 10
    ensures total == r + 10 * q <==> total % 10 == r && total / 10 == q
  {
    if total == r + 10 * q {
      assert (r + 10 * q) / 10 == q && (r + 10 * q) % 10 == r;
    }
  }

  /** The column-by-column check is the sum: from `column` on, with `carry`
      coming in, the columns add up exactly when the words' numbers and the
      carry add up to the result's number. */
  lemma {:induction false} ColumnsAreSum(p: Puzzle, b: map<char, int>, column: int, carry: int)
    requires WellFormed(p) && Good(p.leading, b) && Full(p, b) && 0 <= column <= p.maxLen
    ensures Columns(p, b, column, carry) <==> carry + SumTails(p.words, b, column) == Tail(p.result, b, column)
    decreases p.maxLen - column
  {
    if column == p.maxLen {
      SumTailsPastEnd(p.words, b, column);
    } else {
      SumTailsStep(p.words, b, column);
      var total := carry + ColumnSum(p.words, b, column);
      ColumnsAreSum(p, b, column + 1, total / 10);
      var r := ResultDigit(p, b, column);
      assert Tail(p.result, b, column) == r + 10 * Tail(p.result, b, column + 1);
      DivModTen(total, Tail(p.result, b, column + 1) - SumTails(p.words, b, column + 1), r);
    }
  }

  // ---------------------------------------------------------------------
  // The search finds exactly the complete assignments that add up
  // ---------------------------------------------------------------------

  /** Giving an unassigned letter an unused digit it may take keeps the
      assignment admissible. */
  lemma GoodInsert(p: Puzzle, a: map<char, int>, ch: char, d: int)
    requires Good(p.leading, a) && ch !in a && d !in a.Values && 0 <= d <= 9
    requires !(d == 0 && ch in p.leading)
    ensures Good(p.leading, a[ch := d]) && Extends(a, a[ch := d])
  {
    forall x | x in a ensures a[x] != d {
      assert a[x] in a.Values;
    }
  }

  /** A column sum reads only the column's letters. */
  lemma {:induction false} ColumnSumExtends(ws: seq<string>, a: map<char, int>, b: map<char, int>, column: int)
    requires ColumnAssigned(ws, a, column) && Extends(a, b)
    ensures ColumnAssigned(ws, b, column)
    ensures ColumnSum(ws, a, column) == ColumnSum(ws, b, column)
  {
    if ws != [] {
      var init := ws[..|ws| - 1];
      assert forall j :: 0 <= j < |init| ==> init[j] == ws[j];
      ColumnSumExtends(init, a, b, column);
    }
  }

  /** Past the last column every letter is settled. */
  lemma ReadyAtEnd(p: Puzzle, wi: int, a: map<char, int>)
    requires WellFormed(p) && Ready(p, p.maxLen, wi, a)
    ensures Full(p, a)
  {
    forall j | 0 <= j < |p.words| ensures Spelled(p.words[j], a) {
      assert |p.words[j]| <= p.maxLen;
    }
  }

  /** A complete assignment has every column's letters. */
  lemma FullColumns(p: Puzzle, b: map<char, int>, column: int)
    requires Full(p, b)
    ensures ColumnAssigned(p.words, b, column)
  {
    forall j | 0 <= j < |p.words| && 0 <= column < |p.words[j]| ensures p.words[j][column] in b {
      assert Spelled(p.words[j], b);
    }
  }

  /** When `solve` succeeds, some admissible complete assignment extending its
      starting one makes the remaining columns add up. */
  lemma SearchSound(p: Puzzle, column: int, wi: int, carry: int, a: map<char, int>) returns (b: map<char, int>)
    requires WellFormed(p) && Ready(p, column, wi, a) && Good(p.leading, a)
    requires Search(p, column, wi, carry, a)
    ensures Extends(a, b) && Good(p.leading, b) && Full(p, b) && Columns(p, b, column, carry)
    decreases p.maxLen - column, |p.words| - wi, 11
  {
    if column == p.maxLen {
      ReadyAtEnd(p, wi, a);
      b := a;
    } else if wi == |p.words| {
      var total := carry + ColumnSum(p.words, a, column);
      var digit := total % 10;
      var newCarry := total / 10;
      var next := a;
      if column < |p.result| && p.result[column] !in a {
        var ch := p.result[column];
        GoodInsert(p, a, ch, digit);
        next := a[ch := digit];
      }
      ReadyColumn(p, column, a, next);
      b := SearchSound(p, column + 1, 0, newCarry, next);
      ColumnSumExtends(p.words, a, b, column);
      assert ResultDigit(p, b, column) == digit;
    } else {
      var w := p.words[wi];
      if column >= |w| || w[column] in a {
        ReadyWord(p, column, wi, a, a);
        b := SearchSound(p, column, wi + 1, carry, a);
      } else {
        b := TryDigitsSound(p, column, wi, carry, a, w[column], 0);
      }
    }
  }

  lemma TryDigitsSound(p: Puzzle, column: int, wi: int, carry: int, a: map<char, int>, ch: char, d: int)
    returns (b: map<char, int>)
    requires WellFormed(p) && Ready(p, column, wi, a) && Good(p.leading, a)
    requires wi < |p.words| && column < |p.words[wi]| && ch == p.words[wi][column] && ch !in a
    requires 0 <= d <= 10
    requires TryDigits(p, column, wi, carry, a, ch, d)
    ensures Extends(a, b) && Good(p.leading, b) && Full(p, b) && Columns(p, b, column, carry)
    decreases p.maxLen - column, |p.words| - wi, 10 - d
  {
    if d in a.Values || (d == 0 && ch in p.leading) {
      b := TryDigitsSound(p, column, wi, carry, a, ch, d + 1);
    } else {
      ReadyWord(p, column, wi, a, a[ch := d]);
      if Search(p, column, wi + 1, carry, a[ch := d]) {
        GoodInsert(p, a, ch, d);
        b := SearchSound(p, column, wi + 1, carry, a[ch := d]);
      } else {
        b := TryDigitsSound(p, column, wi, carry, a, ch, d + 1);
      }
    }
  }

  /** A digit some other letter of `b` holds is not free for `ch`. */
  lemma FreeDigit(p: Puzzle, a: map<char, int>, b: map<char, int>, ch: char)
    requires Good(p.leading, b) && Extends(a, b) && ch in b && ch !in a
    ensures b[ch] !in a.Values
    ensures !(b[ch] == 0 && ch in p.leading)
    ensures Extends(a[ch := b[ch]], b)
  {
  }

  /** When some admissible complete assignment extending its starting one
      makes the remaining columns add up, `solve` succeeds. */
  lemma SearchComplete(p: Puzzle, column: int, wi: int, carry: int, a: map<char, int>, b: map<char, int>)
    requires WellFormed(p) && Ready(p, column, wi, a) && Good(p.leading, a)
    requires Extends(a, b) && Good(p.leading, b) && Full(p, b) && Columns(p, b, column, carry)
    ensures Search(p, column, wi, carry, a)
    decreases p.maxLen - column, |p.words| - wi, 11
  {
    if column == p.maxLen {
    } else if wi == |p.words| {
      ColumnSumExtends(p.words, a, b, column);
      var total := carry + ColumnSum(p.words, a, column);
      var newCarry := total / 10;
      var next := a;
      if column < |p.result| && p.result[column] !in a {
        var ch := p.result[column];
        FreeDigit(p, a, b, ch);
        GoodInsert(p, a, ch, b[ch]);
        next := a[ch := b[ch]];
      }
      ReadyColumn(p, column, a, next);
      SearchComplete(p, column + 1, 0, newCarry, next, b);
    } else {
      var w := p.words[wi];
      if column >= |w| || w[column] in a {
        ReadyWord(p, column, wi, a, a);
        SearchComplete(p, column, wi + 1, carry, a, b);
      } else {
        assert Spelled(w, b);
        TryDigitsComplete(p, column, wi, carry, a, w[column], 0, b);
      }
    }
  }

  lemma TryDigitsComplete(p: Puzzle, column: int, wi: int, carry: int, a: map<char, int>, ch: char, d: int,
                          b: map<char, int>)
    requires WellFormed(p) && Ready(p, column, wi, a) && Good(p.leading, a)
    requires wi < |p.words| && column < |p.words[wi]| && ch == p.words[wi][column] && ch !in a
    requires Extends(a, b) && Good(p.leading, b) && Full(p, b) && Columns(p, b, column, carry)
    requires ch in b && 0 <= d <= b[ch]
    ensures TryDigits(p, column, wi, carry, a, ch, d)
    decreases p.maxLen - column, |p.words| - wi, 10 - d
  {
    if d == b[ch] {
      FreeDigit(p, a, b, ch);
      GoodInsert(p, a, ch, d);
      ReadyWord(p, column, wi, a, a[ch := d]);
      SearchComplete(p, column, wi + 1, carry, a[ch := d], b);
    } else {
      TryDigitsComplete(p, column, wi, carry, a, ch, d + 1, b);
    }
  }

  // ---------------------------------------------------------------------
  // The puzzle as isSolvable sets it up
  // ---------------------------------------------------------------------

  /** `s[::-1]`. */
  function Reverse(s: string): string
  {
    seq(|s|, i requires 0 <= i < |s| => s[|s| - 1 - i])
  }

  /** `set("".join(words) + result)`. */
  function Letters(words: seq<string>, result: string): set<char>
  {
    (set j, i | 0 <= j < |words| && 0 <= i < |words[j]| :: words[j][i]) + (set i | 0 <= i < |result| :: result[i])
  }

  /** The first letter of every word longer than one letter, and of the
      result when it is longer than one letter. */
  function Leading(words: seq<string>, result: string): set<char>
  {
    (set j | 0 <= j < |words| && |words[j]| > 1 :: words[j][0]) + (if |result| > 1 then {result[0]} else {})
  }

  /** `max(len(word) for word in words)`. */
  function MaxWordLen(words: seq<string>): (m: nat)
    requires words != []
    ensures forall j :: 0 <= j < |words| ==> |words[j]| <= m
    ensures exists j :: 0 <= j < |words| && |words[j]| == m
  {
    if |words| == 1 then |words[0]|
    else
      var m := MaxWordLen(words[..|words| - 1]);
      assert forall j :: 0 <= j < |words| - 1 ==> words[..|words| - 1][j] == words[j];
      if m >= |words[|words| - 1]| then m else |words[|words| - 1]|
  }

  /** What `solve` works on: the reversed words and result, the leading
      letters, and `max(len(result), max_word_len)` columns. */
  function MakePuzzle(words: seq<string>, result: string): (p: Puzzle)
    requires words != []
    ensures WellFormed(p)
  {
    var m := MaxWordLen(words);
    Puzzle(seq(|words|, j requires 0 <= j < |words| => Reverse(words[j])), Reverse(result),
           Leading(words, result), if |result| >= m then |result| else m)
  }

  /** The number a word spells under an assignment, most significant letter
      first. */
  function Value(s: string, b: map<char, int>): int
    requires Spelled(s, b)
  {
    if s == [] then 0 else 10 * Value(s[..|s| - 1], b) + b[s[|s| - 1]]
  }

  /** The sum of the words' numbers. */
  function SumValues(words: seq<string>, b: map<char, int>): int
    requires forall j :: 0 <= j < |words| ==> Spelled(words[j], b)
  {
    if words == [] then 0 else SumValues(words[..|words| - 1], b) + Value(words[|words| - 1], b)
  }

  /** A solution of the puzzle: distinct digits for all its letters, no
      leading zero, and the words adding up to the result. */
  ghost predicate Solution(words: seq<string>, result: string, b: map<char, int>)
  {
    && Good(Leading(words, result), b)
    && Spelled(result, b)
    && (forall j :: 0 <= j < |words| ==> Spelled(words[j], b))
    && SumValues(words, b) == Value(result, b)
  }

  ghost predicate Solvable(words: seq<string>, result: string)
  {
    exists b :: Solution(words, result, b)
  }

  /** Reading a reversed word from its first letter gives the word's number. */
  lemma {:induction false} TailReverse(s: string, b: map<char, int>)
    requires Spelled(s, b)
    ensures Spelled(Reverse(s), b)
    ensures Tail(Reverse(s), b, 0) == Value(s, b)
    decreases |s|
  {
    var r := Reverse(s);
    assert Spelled(r, b) by {
      forall i | 0 <= i < |r| ensures r[i] in b {
        assert r[i] == s[|s| - 1 - i];
      }
    }
    if s != [] {
      var init := s[..|s| - 1];
      assert Spelled(init, b) by {
        forall i | 0 <= i < |init| ensures init[i] in b {
          assert init[i] == s[i];
        }
      }
      TailReverse(init, b);
      TailShift(r, Reverse(init), b, 0);
    }
  }

  /** Dropping the first letter of a reversed word shifts its positions. */
  lemma {:induction false} TailShift(r: string, rest: string, b: map<char, int>, c: nat)
    requires r != [] && rest == r[1..] && Spelled(r, b)
    ensures Spelled(rest, b)
    ensures Tail(r, b, c + 1) == Tail(rest, b, c)
    decreases |rest| - c
  {
    assert Spelled(rest, b) by {
      forall i | 0 <= i < |rest| ensures rest[i] in b {
        assert rest[i] == r[i + 1];
      }
    }
    if c < |rest| {
      TailShift(r, rest, b, c + 1);
    }
  }

  /** The reversed words of a list. */
  function ReverseAll(words: seq<string>): seq<string>
  {
    seq(|words|, j requires 0 <= j < |words| => Reverse(words[j]))
  }

  /** The reversed words, read from their first letters, sum to the words'
      numbers. */
  lemma {:induction false} SumTailsReverse(words: seq<string>, b: map<char, int>)
    requires forall j :: 0 <= j < |words| ==> Spelled(words[j], b)
    ensures forall j :: 0 <= j < |words| ==> Spelled(ReverseAll(words)[j], b)
    ensures SumTails(ReverseAll(words), b, 0) == SumValues(words, b)
    decreases |words|
  {
    var rws := ReverseAll(words);
    forall j | 0 <= j < |words| ensures Spelled(rws[j], b) {
      TailReverse(words[j], b);
    }
    if words != [] {
      var init := words[..|words| - 1];
      assert forall j :: 0 <= j < |init| ==> init[j] == words[j];
      SumTailsReverse(init, b);
      assert rws[..|rws| - 1] == ReverseAll(init);
      TailReverse(words[|words| - 1], b);
    }
  }

  /** The numbers `0 .. n - 1`; the digits are `Below(10)`. */
  function Below(n: nat): (r: set<int>)
    ensures forall d :: d in r <==> 0 <= d < n
    ensures |r| == n
  {
    if n == 0 then {} else Below(n - 1) + {n - 1}
  }

  /** An injective assignment gives as many digits as it has letters. */
  lemma {:induction false} ImageSize(s: set<char>, b: map<char, int>)
    requires forall x :: x in s ==> x in b
    requires Injective(b)
    ensures |set x | x in s :: b[x]| == |s|
    decreases |s|
  {
    if s != {} {
      var x :| x in s;
      var smaller := s - {x};
      ImageSize(smaller, b);
      assert (set y | y in s :: b[y]) == (set y | y in smaller :: b[y]) + {b[x]};
    }
  }

  /** Every letter of a puzzle whose words and result are spelled has a digit. */
  lemma LettersAssigned(words: seq<string>, result: string, b: map<char, int>)
    requires Spelled(result, b) && forall j :: 0 <= j < |words| ==> Spelled(words[j], b)
    ensures forall x :: x in Letters(words, result) ==> x in b
  {
    forall x | x in Letters(words, result) ensures x in b {
      if x !in (set i | 0 <= i < |result| :: result[i]) {
        var j, i :| 0 <= j < |words| && 0 <= i < |words[j]| && words[j][i] == x;
        assert Spelled(words[j], b);
      }
    }
  }

  /** Pigeonhole: `n` digits cannot go to more than `n` letters. */
  lemma DigitsBound(s: set<char>, b: map<char, int>, n: nat)
    requires Injective(b) && forall x :: x in b ==> 0 <= b[x] < n
    requires forall x :: x in s ==> x in b
    ensures |s| <= n
  {
    ImageSize(s, b);
    var image := set x | x in s :: b[x];
    var digits := Below(n);
    forall y | y in image ensures y in digits {
      var x :| x in s && b[x] == y;
    }
    SubsetSize(image, digits);
  }

  /** A solution leaves no puzzle with more than ten distinct letters. */
  lemma AtMostTenLetters(words: seq<string>, result: string, b: map<char, int>)
    requires Injective(b) && forall x :: x in b ==> 0 <= b[x] <= 9
    requires Spelled(result, b) && forall j :: 0 <= j < |words| ==> Spelled(words[j], b)
    ensures |Letters(words, result)| <= 10
  {
    LettersAssigned(words, result, b);
    DigitsBound(Letters(words, result), b, 10);
  }

  lemma SubsetSize(a: set<int>, b: set<int>)
    requires a <= b
    ensures |a| <= |b|
  {
    var rest := b - a;
    assert b == a + rest;
    assert a * rest == {};
  }

  /** A puzzle of more than ten distinct letters has no solution. */
  lemma NoSolutionPastTen(words: seq<string>, result: string)
    requires |Letters(words, result)| > 10
    ensures !Solvable(words, result)
  {
    if b :| Solution(words, result, b) {
      AtMostTenLetters(words, result, b);
    }
  }

  /** A word is spelled exactly when its reversal is. */
  lemma SpelledReverse(s: string, b: map<char, int>)
    ensures Spelled(Reverse(s), b) <==> Spelled(s, b)
  {
    var r := Reverse(s);
    if Spelled(r, b) {
      forall i | 0 <= i < |s| ensures s[i] in b {
        assert s[i] == r[|s| - 1 - i];
      }
    } else {
      var i :| 0 <= i < |r| && r[i] !in b;
      assert r[i] == s[|s| - 1 - i];
    }
  }

  /** On a puzzle, the complete assignments whose columns add up are the
      solutions of the words and result it was made from. */
  lemma SolutionsAreColumns(words: seq<string>, result: string, b: map<char, int>)
    requires words != []
    ensures var p := MakePuzzle(words, result);
      Solution(words, result, b) <==> Good(p.leading, b) && Full(p, b) && Columns(p, b, 0, 0)
  {
    var p := MakePuzzle(words, result);
    assert p.words == ReverseAll(words);
    SpelledReverse(result, b);
    forall j | 0 <= j < |words| ensures Spelled(p.words[j], b) <==> Spelled(words[j], b) {
      SpelledReverse(words[j], b);
    }
    if Good(p.leading, b) && Spelled(result, b) && forall j :: 0 <= j < |words| ==> Spelled(words[j], b) {
      TailReverse(result, b);
      SumTailsReverse(words, b);
      ColumnsAreSum(p, b, 0, 0);
    }
  }

  /** `solve(0, 0, 0)` answers whether the puzzle has a solution. */
  lemma SearchMeansSolution(words: seq<string>, result: string)
    requires words != []
    ensures Ready(MakePuzzle(words, result), 0, 0, map[])
    ensures Search(MakePuzzle(words, result), 0, 0, 0, map[]) <==> Solvable(words, result)
  {
    var p := MakePuzzle(words, result);
    var none: map<char, int> := map[];
    if Search(p, 0, 0, 0, none) {
      var b := SearchSound(p, 0, 0, 0, none);
      SolutionsAreColumns(words, result, b);
    }
    if b :| Solution(words, result, b) {
      SolutionsAreColumns(words, result, b);
      SearchComplete(p, 0, 0, 0, none, b);
    }
  }

  // ---------------------------------------------------------------------
  // The closure state of solve: assignment and used_digits
  // ---------------------------------------------------------------------

  /** Assigning a new letter adds its digit to the digits in use. */
  lemma ValuesInsert(a: map<char, int>, ch: char, d: int)
    requires ch !in a
    ensures a[ch := d].Values == a.Values + {d}
  {
    var b := a[ch := d];
    forall v | v in a.Values ensures v in b.Values {
      var x :| x in a && a[x] == v;
      assert b[x] == v;
    }
    assert b[ch] == d;
  }

  /** Dropping a letter of an injective assignment frees exactly its digit. */
  lemma ValuesRemove(a: map<char, int>, ch: char)
    requires ch in a && Injective(a)
    ensures (a - {ch}).Values == a.Values - {a[ch]}
  {
    var b := a - {ch};
    forall v | v in a.Values && v != a[ch] ensures v in b.Values {
      var x :| x in a && a[x] == v;
      assert b[x] == v;
    }
  }

  /** `used[d]` says whether some letter holds the digit `d`. */
  predicate Mirrors(used: seq<bool>, a: map<char, int>)
  {
    |used| == 10 && forall d :: 0 <= d < 10 ==> (used[d] <==> d in a.Values)
  }

  /** Assigning a free digit to a new letter: the digit becomes used, and the
      assignment stays admissible. */
  lemma AssignKeeps(p: Puzzle, used: seq<bool>, a: map<char, int>, ch: char, d: int)
    requires Mirrors(used, a) && Good(p.leading, a) && ch !in a && 0 <= d <= 9 && !used[d]
    requires !(d == 0 && ch in p.leading)
    ensures Mirrors(used[d := true], a[ch := d])
    ensures Good(p.leading, a[ch := d]) && Extends(a, a[ch := d])
  {
    ValuesInsert(a, ch, d);
    GoodInsert(p, a, ch, d);
  }

  /** Dropping the letter just assigned frees its digit again and restores
      the state before the assignment. */
  lemma UnassignRestores(used: seq<bool>, a: map<char, int>, ch: char, d: int)
    requires |used| == 10 && ch !in a && 0 <= d <= 9 && !used[d]
    ensures a[ch := d] - {ch} == a
    ensures used[d := true][d := false] == used
  {
  }

  /** Dropping a letter whose digit is `d` frees `d`, and an admissible
      assignment stays admissible. */
  lemma UnassignKeeps(p: Puzzle, used: seq<bool>, a: map<char, int>, ch: char)
    requires Mirrors(used, a) && Good(p.leading, a) && ch in a
    ensures Mirrors(used[a[ch] := false], a - {ch}) && Good(p.leading, a - {ch})
  {
    ValuesRemove(a, ch);
  }

  /** The state the nested `solve` shares with `isSolvable`: the
      letter-to-digit `assignment` dict and the `used_digits` list. */
  class WordSum {
    const p: Puzzle
    var assignment: map<char, int>
    const usedDigits: array<bool>

    /** `used_digits[d]` says whether some letter holds `d`, and the
        assignment is admissible. */
    ghost predicate Valid()
      reads this, usedDigits
    {
      && WellFormed(p)
      && usedDigits.Length == 10
      && Good(p.leading, assignment)
      && Mirrors(usedDigits[..], assignment)
    }

    /** `assignment = {}` and `used_digits = [False] * 10`. */
    constructor (p: Puzzle)
      requires WellFormed(p)
      ensures Valid() && this.p == p && assignment == map[] && fresh(usedDigits)
    {
      this.p := p;
      assignment := map[];
      usedDigits := new bool[10](_ => false);
    }

    /** `solve(column, word_index, carry)`: it answers as `Search` does; a
        failed call leaves the assignment and the used digits as it found
        them, and a successful one keeps every earlier choice. */
    method Solve(column: int, wordIndex: int, carry: int) returns (found: bool)
      requires Valid() && Ready(p, column, wordIndex, assignment)
      modifies this, usedDigits
      ensures Valid()
      ensures found == Search(p, column, wordIndex, carry, old(assignment))
      ensures Extends(old(assignment), assignment)
      ensures !found ==> assignment == old(assignment) && usedDigits[..] == old(usedDigits[..])
      decreases p.maxLen - column, |p.words| - wordIndex, 2
    {
      if column == p.maxLen {
        return carry == 0;
      }
      if wordIndex == |p.words| {
        found := FinishColumn(column, carry);
        return;
      }
      var word := p.words[wordIndex];
      if column >= |word| || word[column] in assignment {
        ReadyWord(p, column, wordIndex, assignment, assignment);
        found := Solve(column, wordIndex + 1, carry);
        return;
      }
      found := TryLetter(column, wordIndex, carry, word[column]);
    }

    /** The end of a column: add up its digits and the carry, then check or
        assign the result's letter (lines 34-66). */
    method FinishColumn(column: int, carry: int) returns (found: bool)
      requires Valid() && Ready(p, column, |p.words|, assignment) && column < p.maxLen
      modifies this, usedDigits
      ensures Valid()
      ensures found == Search(p, column, |p.words|, carry, old(assignment))
      ensures Extends(old(assignment), assignment)
      ensures !found ==> assignment == old(assignment) && usedDigits[..] == old(usedDigits[..])
      decreases p.maxLen - column, 0, 1
    {
      var total := ColumnTotal(column, carry);
      var digit := total % 10;
      var newCarry := total / 10;
      if column < |p.result| {
        var resChar := p.result[column];
        if resChar in assignment {
          if assignment[resChar] != digit {
            return false;
          }
          ReadyColumn(p, column, assignment, assignment);
          found := Solve(column + 1, 0, newCarry);
          return;
        }
        if usedDigits[digit] {
          return false;
        }
        if digit == 0 && resChar in p.leading {
          return false;
        }
        found := AssignResult(column, digit, newCarry);
        return;
      }
      if digit != 0 {
        return false;
      }
      ReadyColumn(p, column, assignment, assignment);
      found := Solve(column + 1, 0, newCarry);
    }

    /** `total = carry` plus the digit of every word that reaches this column. */
    method ColumnTotal(column: int, carry: int) returns (total: int)
      requires Ready(p, column, |p.words|, assignment)
      ensures ColumnAssigned(p.words, assignment, column)
      ensures total == carry + ColumnSum(p.words, assignment, column)
    {
      total := carry;
      var j := 0;
      while j < |p.words|
        invariant 0 <= j <= |p.words|
        invariant ColumnAssigned(p.words[..j], assignment, column)
        invariant total == carry + ColumnSum(p.words[..j], assignment, column)
      {
        var word := p.words[j];
        assert p.words[..j + 1][..j] == p.words[..j];
        if column < |word| {
          total := total + assignment[word[column]];
        }
        j := j + 1;
      }
      assert p.words[..j] == p.words;
    }

    /** Give the result's letter of `column` the column's digit, solve the
        next column, and undo the assignment in the `finally` block whatever
        the answer (lines 56-64). */
    method AssignResult(column: int, digit: int, newCarry: int) returns (found: bool)
      requires Valid() && Ready(p, column, |p.words|, assignment) && column < p.maxLen && column < |p.result|
      requires p.result[column] !in assignment && 0 <= digit <= 9 && !usedDigits[digit]
      requires !(digit == 0 && p.result[column] in p.leading)
      modifies this, usedDigits
      ensures Valid()
      ensures Ready(p, column + 1, 0, old(assignment)[p.result[column] := digit])
      ensures found == Search(p, column + 1, 0, newCarry, old(assignment)[p.result[column] := digit])
      ensures Extends(old(assignment), assignment)
      ensures !found ==> assignment == old(assignment) && usedDigits[..] == old(usedDigits[..])
      decreases p.maxLen - column, 0, 0
    {
      var resChar := p.result[column];
      ghost var before := assignment;
      AssignKeeps(p, usedDigits[..], assignment, resChar, digit);
      assignment := assignment[resChar := digit];
      usedDigits[digit] := true;
      ReadyColumn(p, column, before, assignment);
      found := Solve(column + 1, 0, newCarry);
      // the `finally` block
      ghost var after := assignment;
      assert after[resChar] == digit;
      UnassignKeeps(p, usedDigits[..], assignment, resChar);
      usedDigits[digit] := false;
      assignment := assignment - {resChar};
      if !found {
        UnassignRestores(old(usedDigits[..]), before, resChar, digit);
      }
    }

    /** The `for digit in range(10)` loop for an unassigned letter of a word
        (lines 77-90). */
    method TryLetter(column: int, wordIndex: int, carry: int, ch: char) returns (found: bool)
      requires Valid() && Ready(p, column, wordIndex, assignment)
      requires wordIndex < |p.words| && column < |p.words[wordIndex]| && ch == p.words[wordIndex][column]
      requires ch !in assignment
      modifies this, usedDigits
      ensures Valid()
      ensures found == TryDigits(p, column, wordIndex, carry, old(assignment), ch, 0)
      ensures Extends(old(assignment), assignment)
      ensures !found ==> assignment == old(assignment) && usedDigits[..] == old(usedDigits[..])
      decreases p.maxLen - column, |p.words| - wordIndex, 1
    {
      var digit := 0;
      while digit < 10
        invariant 0 <= digit <= 10
        invariant Valid()
        invariant assignment == old(assignment) && usedDigits[..] == old(usedDigits[..])
        invariant TryDigits(p, column, wordIndex, carry, assignment, ch, 0)
          == TryDigits(p, column, wordIndex, carry, assignment, ch, digit)
        decreases 10 - digit
      {
        if usedDigits[digit] || (digit == 0 && ch in p.leading) {
          digit := digit + 1;
          continue;
        }
        found := AssignLetter(column, wordIndex, carry, ch, digit);
        if found {
          return;
        }
        digit := digit + 1;
      }
      return false;
    }

    /** One turn of the digit loop: assign, solve the next word, and undo the
        assignment when that fails. */
    method AssignLetter(column: int, wordIndex: int, carry: int, ch: char, digit: int) returns (found: bool)
      requires Valid() && Ready(p, column, wordIndex, assignment)
      requires wordIndex < |p.words| && column < |p.words[wordIndex]| && ch == p.words[wordIndex][column]
      requires ch !in assignment && 0 <= digit <= 9 && !usedDigits[digit]
      requires !(digit == 0 && ch in p.leading)
      modifies this, usedDigits
      ensures Valid()
      ensures Ready(p, column, wordIndex + 1, old(assignment)[ch := digit])
      ensures found == Search(p, column, wordIndex + 1, carry, old(assignment)[ch := digit])
      ensures Extends(old(assignment), assignment)
      ensures !found ==> assignment == old(assignment) && usedDigits[..] == old(usedDigits[..])
      decreases p.maxLen - column, |p.words| - wordIndex, 0
    {
      ghost var before := assignment;
      AssignKeeps(p, usedDigits[..], assignment, ch, digit);
      assignment := assignment[ch := digit];
      usedDigits[digit] := true;
      ReadyWord(p, column, wordIndex, before, assignment);
      found := Solve(column, wordIndex + 1, carry);
      if !found {
        UnassignRestores(old(usedDigits[..]), before, ch, digit);
        usedDigits[digit] := false;
        assignment := assignment - {ch};
      }
    }
  }

  /** `Solution().isSolvable(words, result)`: more than ten distinct letters
      answer `False` at once; otherwise the search runs from the first column
      with nothing assigned, and it answers whether some admissible
      assignment makes the words add up to the result. `None` stands for the
      `ValueError` that `max` raises when `words` is empty. */
  method IsSolvable(words: seq<string>, result: string) returns (r: Option<bool>)
    ensures |Letters(words, result)| > 10 ==> r == Some(false)
    ensures r.None? <==> words == [] && |Letters(words, result)| <= 10
    ensures r.Some? ==> r.value == Solvable(words, result)
  {
    var uniqueChars := Letters(words, result);
    if |uniqueChars| > 10 {
      NoSolutionPastTen(words, result);
      return Some(false);
    }
    if words == [] {
      return None;
    }
    var p := MakePuzzle(words, result);
    var state := new WordSum(p);
    SearchMeansSolution(words, result);
    var found := state.Solve(0, 0, 0);
    return Some(found);
  }
}
