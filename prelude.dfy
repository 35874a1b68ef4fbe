/** Small building blocks shared by the puzzle modules: an Option type, Rust's
    `str::lines`, decimal digits, and order-independent sums over finite sets
    (what a sum over a HashMap/HashSet iteration amounts to). */
module Prelude {

  datatype Option<+T> = None | Some(value: T)

  // ---------------------------------------------------------------------
  // Lines of a text

  /** Index of the first '\n' in `s`, or |s| when there is none. */
  function LineEnd(s: string): (k: nat)
    ensures k <= |s|
    ensures forall i :: 0 <= i < k ==> s[i] != '\n'
    ensures k < |s| ==> s[k] == '\n'
  {
    if s == [] || s[0] == '\n' then 0 else 1 + LineEnd(s[1..])
  }

  /** `str::lines` for '\n'-terminated text: split at every '\n'; the final
      line ending is optional, so a trailing '\n' does not start a new line. */
  function Lines(s: string): (ls: seq<string>)
    ensures forall i, j :: 0 <= i < |ls| && 0 <= j < |ls[i]| ==> ls[i][j] != '\n'
    decreases |s|
  {
    if s == [] then []
    else
      var k := LineEnd(s);
      if k == |s| then [s] else [s[..k]] + Lines(s[k + 1..])
  }

  /** Every row followed by a '\n'. */
  function Unlines(rows: seq<string>): string {
    if rows == [] then [] else rows[0] + "\n" + Unlines(rows[1..])
  }

  lemma {:induction false} LineEndOfRow(row: string, rest: string)
    requires forall j :: 0 <= j < |row| ==> row[j] != '\n'
    ensures LineEnd(row + "\n" + rest) == |row|
  {
    if row != [] {
      assert (row + "\n" + rest)[1..] == row[1..] + "\n" + rest;
      LineEndOfRow(row[1..], rest);
    }
  }

  /** Splitting '\n'-terminated rows gives the rows back. */
  lemma {:induction false} LinesUnlines(rows: seq<string>)
    requires forall i, j :: 0 <= i < |rows| && 0 <= j < |rows[i]| ==> rows[i][j] != '\n'
    ensures Lines(Unlines(rows)) == rows
  {
    if rows != [] {
      var s := Unlines(rows);
      assert s == rows[0] + "\n" + Unlines(rows[1..]);
      LineEndOfRow(rows[0], Unlines(rows[1..]));
      assert s[..|rows[0]|] == rows[0];
      assert s[|rows[0]| + 1..] == Unlines(rows[1..]);
      LinesUnlines(rows[1..]);
    }
  }

  // ---------------------------------------------------------------------
  // Decimal digits

  predicate IsDigit(c: char) {
    '0' <= c <= '9'
  }

  predicate AllDigits(s: string) {
    forall i :: 0 <= i < |s| ==> IsDigit(s[i])
  }

  /** `char::to_digit(10)` on a decimal digit. */
  function DigitValue(c: char): (d: nat)
    requires IsDigit(c)
    ensures d <= 9
  {
    (c as int - '0' as int) as nat
  }

  function DigitChar(d: nat): (c: char)
    requires d <= 9
    ensures IsDigit(c) && DigitValue(c) == d
  {
    (d + '0' as int) as char
  }

  function Pow10(n: nat): (r: nat)
    ensures r >= 1
  {
    if n == 0 then 1 else 10 * Pow10(n - 1)
  }

  // ---------------------------------------------------------------------
  // Order-independent sums over finite sets

  ghost function Pick<T>(s: set<T>): (x: T)
    requires s != {}
    ensures x in s
  {
    var x :| x in s; x
  }

  /** The sum of `f` over `s`, in no particular order. */
  ghost function SetSum<T>(s: set<T>, f: T -> nat): nat
    decreases |s|
  {
    if s == {} then 0 else var x := Pick(s); f(x) + SetSum(s - {x}, f)
  }

  /** Any element can be taken out first: the sum does not depend on order. */
  lemma {:induction false} SetSumRemove<T>(s: set<T>, y: T, f: T -> nat)
    requires y in s
    ensures SetSum(s, f) == f(y) + SetSum(s - {y}, f)
    decreases |s|
  {
    var x := Pick(s);
    if x != y {
      assert s - {x} - {y} == s - {y} - {x};
      SetSumRemove(s - {x}, y, f);
      SetSumRemove(s - {y}, x, f);
    }
  }

  /** Sums over two sets that agree on `f` inside `small` and where `f` is zero
      on the rest of `big` are equal. */
  lemma {:induction false} SetSumZeroOutside<T>(big: set<T>, small: set<T>, f: T -> nat)
    requires small <= big
    requires forall x :: x in big && x !in small ==> f(x) == 0
    ensures SetSum(big, f) == SetSum(small, f)
    decreases |big|
  {
    if big != {} {
      var x := Pick(big);
      assert SetSum(big, f) == f(x) + SetSum(big - {x}, f);
      SetSumZeroOutside(big - {x}, small - {x}, f);
      if x in small {
        SetSumRemove(small, x, f);
      } else {
        assert small - {x} == small;
      }
    }
  }

  /** A sum over a subset is no larger. */
  lemma {:induction false} SetSumSubset<T>(small: set<T>, big: set<T>, f: T -> nat)
    requires small <= big
    ensures SetSum(small, f) <= SetSum(big, f)
    decreases |big|
  {
    if big != {} {
      var x := Pick(big);
      assert SetSum(big, f) == f(x) + SetSum(big - {x}, f);
      SetSumSubset(small - {x}, big - {x}, f);
      if x in small {
        SetSumRemove(small, x, f);
      } else {
        assert small - {x} == small;
      }
    }
  }

  /** Functions that agree on a set have the same sum over it. */
  lemma {:induction false} SetSumCongruent<T>(s: set<T>, f: T -> nat, g: T -> nat)
    requires forall x :: x in s ==> f(x) == g(x)
    ensures SetSum(s, f) == SetSum(s, g)
    decreases |s|
  {
    if s != {} {
      var x := Pick(s);
      SetSumCongruent(s - {x}, f, g);
      SetSumRemove(s, x, g);
    }
  }

  /** A pointwise larger function has a larger sum. */
  lemma {:induction false} SetSumMonotone<T>(s: set<T>, f: T -> nat, g: T -> nat)
    requires forall x :: x in s ==> f(x) <= g(x)
    ensures SetSum(s, f) <= SetSum(s, g)
    decreases |s|
  {
    if s != {} {
      var x := Pick(s);
      SetSumMonotone(s - {x}, f, g);
      SetSumRemove(s, x, g);
    }
  }

  /** A sum is zero exactly when every term is. */
  lemma {:induction false} SetSumZero<T>(s: set<T>, f: T -> nat)
    ensures SetSum(s, f) == 0 <==> forall x :: x in s ==> f(x) == 0
    decreases |s|
  {
    if s != {} {
      var x := Pick(s);
      SetSumZero(s - {x}, f);
      forall y | y in s && SetSum(s, f) == 0 ensures f(y) == 0 {
        SetSumRemove(s, y, f);
      }
    }
  }

  lemma {:induction false} SetSumSingleton<T>(x: T, f: T -> nat)
    ensures SetSum({x}, f) == f(x)
  {
    SetSumRemove({x}, x, f);
  }
}
