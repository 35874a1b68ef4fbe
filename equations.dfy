/** Operator equations (src/bin/07.rs): each line is a test value and a list of
    numbers; an equation is solvable when some choice of operators, applied
    strictly left to right, turns the numbers into the test value. */
module Equations {
  import opened Prelude

  datatype Operator = Plus | Multiply | Concatenate

  const Part1Operations: seq<Operator> := [Plus, Multiply]
  const Part2Operations: seq<Operator> := [Plus, Multiply, Concatenate]

  // ---------------------------------------------------------------------
  // Decimal text of numbers (`to_string` and `str::parse`)

  /** The decimal text of `n`, as `to_string` writes it. */
  function Digits(n: nat): (s: string)
    ensures |s| >= 1 && AllDigits(s)
  {
    if n < 10 then [DigitChar(n)] else Digits(n / 10) + [DigitChar(n % 10)]
  }

  /** The number a string of decimal digits denotes, as `str::parse` reads it. */
  function DecimalValue(s: string): nat
    requires AllDigits(s)
  {
    if s == [] then 0 else DecimalValue(s[..|s| - 1]) * 10 + DigitValue(s[|s| - 1])
  }

  /** Reading back what `to_string` wrote gives the number again. */
  lemma {:induction false} DecimalValueOfDigits(n: nat)
    ensures DecimalValue(Digits(n)) == n
  {
    if n >= 10 {
      var s := Digits(n);
      assert s[..|s| - 1] == Digits(n / 10);
      DecimalValueOfDigits(n / 10);
    }
  }

  /** The value of two digit strings written one after the other. */
  lemma {:induction false} DecimalValueAppend(s: string, t: string)
    requires AllDigits(s) && AllDigits(t)
    ensures DecimalValue(s + t) == DecimalValue(s) * Pow10(|t|) + DecimalValue(t)
  {
    if t != [] {
      var t' := t[..|t| - 1];
      DecimalValueSnoc(s, t);
      DecimalValueAppend(s, t');
      ShiftDigit(DecimalValue(s), Pow10(|t'|), DecimalValue(t'), DigitValue(t[|t| - 1]));
    } else {
      assert s + t == s;
    }
  }

  /** Taking the last digit off `s + t` takes it off `t`. */
  lemma DecimalValueSnoc(s: string, t: string)
    requires AllDigits(s) && AllDigits(t) && t != []
    ensures AllDigits(t[..|t| - 1])
    ensures DecimalValue(s + t) == DecimalValue(s + t[..|t| - 1]) * 10 + DigitValue(t[|t| - 1])
  {
    assert (s + t)[..|s + t| - 1] == s + t[..|t| - 1];
    assert (s + t)[|s + t| - 1] == t[|t| - 1];
  }

  lemma ShiftDigit(a: nat, p: nat, b: nat, c: nat)
    ensures (a * p + b) * 10 + c == a * (p * 10) + (b * 10 + c)
  {
    calc {
      (a * p + b) * 10 + c;
      a * p * 10 + b * 10 + c;
      a * (p * 10) + (b * 10 + c);
    }
  }

  // ---------------------------------------------------------------------
  // Evaluating equations

  /** `calculate`: concatenation writes both operands in decimal one after
      the other and reads the result back, which shifts `a` left by as many
      decimal places as `b` has. */
  function Calculate(op: Operator, a: nat, b: nat): (r: nat)
    ensures op == Plus ==> r == a + b
    ensures op == Multiply ==> r == a * b
    ensures op == Concatenate ==> r == a * Pow10(|Digits(b)|) + b
  {
    match op
    case Plus => a + b
    case Multiply => a * b
    case Concatenate =>
      DecimalValueAppend(Digits(a), Digits(b));
      DecimalValueOfDigits(a);
      DecimalValueOfDigits(b);
      DecimalValue(Digits(a) + Digits(b))
  }

  /** The `fold` of `calculate_equation`: operator `ops[i]` combines the
      running value with `rest[i]`. */
  function FoldEquation(acc: nat, rest: seq<nat>, ops: seq<Operator>): nat
    requires |ops| >= |rest|
    decreases |rest|
  {
    if rest == [] then acc else FoldEquation(Calculate(ops[0], acc, rest[0]), rest[1..], ops[1..])
  }

  /** `calculate_equation`: a single number is its own value; otherwise the
      numbers are folded from the left. `equation[0]` and `operations[i]`
      must exist. There is no precedence: the last operator is applied to
      the value of everything before it. */
  function CalculateEquation(equation: seq<nat>, operations: seq<Operator>): (r: nat)
    requires |equation| >= 1 && |operations| >= |equation| - 1
    ensures |equation| == 1 ==> r == equation[0]
    ensures |equation| >= 2 ==>
      r == Calculate(operations[|equation| - 2],
                     FoldEquation(equation[0], equation[1..|equation| - 1], operations),
                     equation[|equation| - 1])
  {
    if |equation| == 1 then equation[0]
    else
      var n := |equation|;
      assert equation[1..] == equation[1..n - 1] + [equation[n - 1]];
      FoldEquationSnoc(equation[0], equation[1..n - 1], equation[n - 1], operations);
      FoldEquation(equation[0], equation[1..], operations)
  }

  lemma {:induction false} FoldEquationSnoc(acc: nat, rest: seq<nat>, x: nat, ops: seq<Operator>)
    requires |ops| >= |rest| + 1
    ensures FoldEquation(acc, rest + [x], ops) == Calculate(ops[|rest|], FoldEquation(acc, rest, ops), x)
    decreases |rest|
  {
    if rest != [] {
      assert (rest + [x])[1..] == rest[1..] + [x];
      FoldEquationSnoc(Calculate(ops[0], acc, rest[0]), rest[1..], x, ops[1..]);
    }
  }

  // ---------------------------------------------------------------------
  // All operator sequences

  /** Every sequence of `tails` with `o` put in front. */
  function PrependEach(o: Operator, tails: seq<seq<Operator>>): (r: seq<seq<Operator>>)
    ensures |r| == |tails|
    ensures forall k :: 0 <= k < |r| ==> r[k] == [o] + tails[k]
  {
    seq(|tails|, k requires 0 <= k < |tails| => [o] + tails[k])
  }

  /** The cartesian product step: each operator in turn, followed by each tail. */
  function Product(ops: seq<Operator>, tails: seq<seq<Operator>>): seq<seq<Operator>> {
    if ops == [] then [] else PrependEach(ops[0], tails) + Product(ops[1..], tails)
  }

  /** `get_all_permutations`: `repeat_n(ops, n).multi_cartesian_product()`,
      the first position varying slowest; there are |ops|^n of them. */
  function AllPermutations(n: nat, ops: seq<Operator>): (r: seq<seq<Operator>>)
    ensures |r| == Power(|ops|, n)
  {
    if n == 0 then [[]]
    else
      var tails := AllPermutations(n - 1, ops);
      ProductLength(ops, tails);
      Product(ops, tails)
  }

  /** `p` is a sequence of `n` operators, each taken from `ops`. */
  predicate Over(p: seq<Operator>, n: nat, ops: seq<Operator>) {
    |p| == n && forall k :: 0 <= k < |p| ==> p[k] in ops
  }

  function Power(b: nat, e: nat): nat {
    if e == 0 then 1 else b * Power(b, e - 1)
  }

  lemma {:induction false} ProductMembers(ops: seq<Operator>, tails: seq<seq<Operator>>, p: seq<Operator>)
    ensures p in Product(ops, tails) <==> |p| >= 1 && p[0] in ops && p[1..] in tails
  {
    if ops != [] {
      ProductMembers(ops[1..], tails, p);
      if p in PrependEach(ops[0], tails) {
        var k :| 0 <= k < |tails| && PrependEach(ops[0], tails)[k] == p;
        assert p[1..] == tails[k];
      }
      if |p| >= 1 && p[0] == ops[0] && p[1..] in tails {
        var k :| 0 <= k < |tails| && tails[k] == p[1..];
        assert PrependEach(ops[0], tails)[k] == p;
      }
    }
  }

  lemma {:induction false} ProductLength(ops: seq<Operator>, tails: seq<seq<Operator>>)
    ensures |Product(ops, tails)| == |ops| * |tails|
  {
    if ops != [] {
      ProductLength(ops[1..], tails);
      assert |Product(ops, tails)| == |tails| + |ops[1..]| * |tails|;
      PeelFactor(|ops|, |tails|);
    }
  }

  lemma PeelFactor(a: nat, b: nat)
    requires a >= 1
    ensures a * b == b + (a - 1) * b
  {
  }

  /** `get_all_permutations(n, ops)` lists exactly the length-`n` sequences
      over `ops`. */
  lemma {:induction false} AllPermutationsMembers(n: nat, ops: seq<Operator>, p: seq<Operator>)
    ensures p in AllPermutations(n, ops) <==> Over(p, n, ops)
  {
    if n > 0 {
      ProductMembers(ops, AllPermutations(n - 1, ops), p);
      if |p| >= 1 {
        AllPermutationsMembers(n - 1, ops, p[1..]);
        if Over(p, n, ops) {
          assert Over(p[1..], n - 1, ops);
        }
        if p[0] in ops && Over(p[1..], n - 1, ops) {
          forall k | 0 <= k < |p| ensures p[k] in ops {
            if k > 0 { assert p[k] == p[1..][k - 1]; }
          }
        }
      }
    }
  }

  /** `is_solveable_equation`: some operator sequence of the right length
      folds to the test value. `equation.len() - 1` needs a number. A single
      number takes no operator and is solvable exactly when it is the test
      value. */
  predicate IsSolvable(key: nat, equation: seq<nat>, operators: seq<Operator>)
    requires |equation| >= 1
    ensures |equation| == 1 ==> (IsSolvable(key, equation, operators) <==> key == equation[0])
  {
    var perms := AllPermutations(|equation| - 1, operators);
    assert |equation| == 1 ==> perms == [[]] && CalculateEquation(equation, perms[0]) == equation[0];
    exists k :: 0 <= k < |perms| && |perms[k]| >= |equation| - 1 && CalculateEquation(equation, perms[k]) == key
  }

  /** An equation is solvable exactly when some assignment of operators from
      the set makes it evaluate to its test value. */
  lemma SolvableIff(key: nat, equation: seq<nat>, operators: seq<Operator>)
    requires |equation| >= 1
    ensures IsSolvable(key, equation, operators) <==>
      exists p :: Over(p, |equation| - 1, operators) && CalculateEquation(equation, p) == key
  {
    var n := |equation| - 1;
    var perms := AllPermutations(n, operators);
    if IsSolvable(key, equation, operators) {
      var k :| 0 <= k < |perms| && |perms[k]| >= n && CalculateEquation(equation, perms[k]) == key;
      AllPermutationsMembers(n, operators, perms[k]);
    }
    if p :| Over(p, n, operators) && CalculateEquation(equation, p) == key {
      AllPermutationsMembers(n, operators, p);
      var k :| 0 <= k < |perms| && perms[k] == p;
    }
  }

  /** More operators can only make more equations solvable. */
  lemma SolvableMonotone(key: nat, equation: seq<nat>, ops1: seq<Operator>, ops2: seq<Operator>)
    requires |equation| >= 1
    requires forall o :: o in ops1 ==> o in ops2
    requires IsSolvable(key, equation, ops1)
    ensures IsSolvable(key, equation, ops2)
  {
    SolvableIff(key, equation, ops1);
    SolvableIff(key, equation, ops2);
    var p :| Over(p, |equation| - 1, ops1) && CalculateEquation(equation, p) == key;
    assert Over(p, |equation| - 1, ops2);
  }

  /** `156: 15 6` needs concatenation: neither 15 + 6 nor 15 * 6 is 156. */
  lemma ConcatenationExample()
    ensures !IsSolvable(156, [15, 6], Part1Operations)
    ensures IsSolvable(156, [15, 6], Part2Operations)
  {
    SolvableIff(156, [15, 6], Part1Operations);
    forall p | Over(p, 1, Part1Operations)
      ensures CalculateEquation([15, 6], p) != 156
    {
      assert p[0] == Plus || p[0] == Multiply;
      assert CalculateEquation([15, 6], p) == FoldEquation(15, [6], p);
      assert [6][1..] == [];
      assert FoldEquation(15, [6], p) == Calculate(p[0], 15, 6);
    }
    SolvableIff(156, [15, 6], Part2Operations);
    assert Over([Concatenate], 1, Part2Operations);
    assert CalculateEquation([15, 6], [Concatenate]) == 156;
  }

  // ---------------------------------------------------------------------
  // Summing the solvable test values

  /** Every list the parser produces has at least one number. */
  predicate WellFormed(equations: map<nat, seq<nat>>) {
    forall k :: k in equations ==> |equations[k]| >= 1
  }

  /** What one entry adds to the running sum of `solution1`/`solution2`. */
  function Contribution(equations: map<nat, seq<nat>>, operators: seq<Operator>, key: nat): nat {
    if key in equations && |equations[key]| >= 1 && IsSolvable(key, equations[key], operators) then key else 0
  }

  ghost function SolvableKeys(equations: map<nat, seq<nat>>, operators: seq<Operator>): set<nat> {
    set k | k in equations && |equations[k]| >= 1 && IsSolvable(k, equations[k], operators)
  }

  /** `solution1`/`solution2`: a fold over the HashMap in unspecified order.
      It adds up the test values of exactly the solvable equations. */
  ghost function Solution(equations: map<nat, seq<nat>>, operators: seq<Operator>): (r: nat)
    ensures r == SetSum(SolvableKeys(equations, operators), k => k)
  {
    var f := k => Contribution(equations, operators, k);
    SetSumZeroOutside(equations.Keys, SolvableKeys(equations, operators), f);
    SetSumCongruent(SolvableKeys(equations, operators), f, k => k);
    SetSum(equations.Keys, f)
  }

  /** Part two allows every operator of part one, so its answer is at least
      as large. */
  lemma Solution2AtLeastSolution1(equations: map<nat, seq<nat>>)
    ensures Solution(equations, Part2Operations) >= Solution(equations, Part1Operations)
  {
    var s1 := SolvableKeys(equations, Part1Operations);
    var s2 := SolvableKeys(equations, Part2Operations);
    forall k | k in s1 ensures k in s2 {
      SolvableMonotone(k, equations[k], Part1Operations, Part2Operations);
    }
    assert Solution(equations, Part1Operations) == SetSum(s1, k => k);
    assert Solution(equations, Part2Operations) == SetSum(s2, k => k);
    SetSumSubset(s1, s2, k => k);
  }

  // ---------------------------------------------------------------------
  // Parsing: `<digits>: <digits>( <digits>)*`, lines separated by '\n'

  /** Length of the run of decimal digits at the start of `s`. */
  function DigitRun(s: string): (n: nat)
    ensures n <= |s| && AllDigits(s[..n])
    ensures n < |s| ==> !IsDigit(s[n])
  {
    if s == [] || !IsDigit(s[0]) then 0
    else
      var n := 1 + DigitRun(s[1..]);
      assert forall i :: 1 <= i < n ==> s[..n][i] == s[1..][..n - 1][i - 1];
      n
  }

  /** `parse_number`: `digit1` (one or more digits, as many as there are)
      read as a number. */
  function ParseNumber(s: string): (r: Option<(nat, string)>)
    ensures r.Some? ==> |r.value.1| < |s|
  {
    var n := DigitRun(s);
    if n == 0 then None else Some((DecimalValue(s[..n]), s[n..]))
  }

  /** The `( <digits>)*` part of `separated_list1(tag(" "), parse_number)`:
      a separator not followed by a number is left unconsumed. */
  function MoreNumbers(s: string): (r: (seq<nat>, string))
    ensures |r.1| <= |s|
    decreases |s|
  {
    if |s| >= 1 && s[0] == ' ' && ParseNumber(s[1..]).Some? then
      var (n, rest) := ParseNumber(s[1..]).value;
      var (ns, rest') := MoreNumbers(rest);
      ([n] + ns, rest')
    else ([], s)
  }

  /** `parse_line`: a test value, ": ", then one or more numbers separated by
      single spaces. Returns the line and the unconsumed input. */
  function ParseLine(s: string): (r: Option<((nat, seq<nat>), string)>)
    ensures r.Some? ==> |r.value.0.1| >= 1 && |r.value.1| < |s|
  {
    match ParseNumber(s)
    case None => None
    case Some((key, rest)) =>
      if |rest| >= 2 && rest[..2] == ": " then
        match ParseNumber(rest[2..])
        case None => None
        case Some((first, rest')) =>
          var (more, rest'') := MoreNumbers(rest');
          Some(((key, [first] + more), rest''))
      else None
  }

  /** The `("\n" line)*` part of `separated_list1(tag("\n"), parse_line)`. */
  function MoreLines(s: string): (r: (seq<(nat, seq<nat>)>, string))
    ensures forall i :: 0 <= i < |r.0| ==> |r.0[i].1| >= 1
    ensures |r.1| <= |s|
    decreases |s|
  {
    if |s| >= 1 && s[0] == '\n' && ParseLine(s[1..]).Some? then
      var (line, rest) := ParseLine(s[1..]).value;
      var (lines, rest') := MoreLines(rest);
      ([line] + lines, rest')
    else ([], s)
  }

  /** `into_iter().collect()` into a HashMap: a later line with the same test
      value replaces an earlier one. */
  function Collect(lines: seq<(nat, seq<nat>)>): map<nat, seq<nat>> {
    if lines == [] then map[]
    else Collect(lines[..|lines| - 1])[lines[|lines| - 1].0 := lines[|lines| - 1].1]
  }

  /** The map has a key for every line and no other keys ... */
  lemma {:induction false} CollectKeys(lines: seq<(nat, seq<nat>)>)
    ensures Collect(lines).Keys == set i | 0 <= i < |lines| :: lines[i].0
  {
    if lines != [] {
      var init := lines[..|lines| - 1];
      CollectKeys(init);
      assert forall i :: 0 <= i < |init| ==> init[i] == lines[i];
    }
  }

  /** ... and the value stored under a key is the one on the last line with
      that key. */
  lemma {:induction false} CollectLastWins(lines: seq<(nat, seq<nat>)>, i: nat)
    requires i < |lines|
    requires forall j :: i < j < |lines| ==> lines[j].0 != lines[i].0
    ensures lines[i].0 in Collect(lines) && Collect(lines)[lines[i].0] == lines[i].1
  {
    var init := lines[..|lines| - 1];
    if i < |lines| - 1 {
      assert forall j :: i < j < |init| ==> init[j] == lines[j];
      CollectLastWins(init, i);
    }
  }

  lemma {:induction false} CollectWellFormed(lines: seq<(nat, seq<nat>)>)
    requires forall i :: 0 <= i < |lines| ==> |lines[i].1| >= 1
    ensures WellFormed(Collect(lines))
  {
    if lines != [] {
      CollectWellFormed(lines[..|lines| - 1]);
    }
  }

  /** `parse_input`: one or more lines; the unconsumed input is returned too.
      Every equation it produces has at least one number, so
      `equation.len() - 1` never underflows. */
  function ParseInput(s: string): (r: Option<(map<nat, seq<nat>>, string)>)
    ensures r.Some? ==> WellFormed(r.value.0) && |r.value.1| < |s|
  {
    match ParseLine(s)
    case None => None
    case Some((line, rest)) =>
      var (lines, rest') := MoreLines(rest);
      CollectWellFormed([line] + lines);
      Some((Collect([line] + lines), rest'))
  }

  /** `part_one` (with Part1Operations) and `part_two` (Part2Operations):
      `None` exactly when no line parses, otherwise the sum of the test
      values of the parsed equations that are solvable. */
  ghost function Part(input: string, operators: seq<Operator>): (r: Option<nat>)
    ensures r.Some? <==> ParseInput(input).Some?
    ensures r.Some? ==> r.value == SetSum(SolvableKeys(ParseInput(input).value.0, operators), k => k)
  {
    match ParseInput(input)
    case None => None
    case Some((equations, _)) => Some(Solution(equations, operators))
  }

  // --- printing equations, to state what the grammar accepts

  /** Each number preceded by a single space. */
  function SpacedNumbers(ns: seq<nat>): string {
    if ns == [] then "" else " " + Digits(ns[0]) + SpacedNumbers(ns[1..])
  }

  function FormatLine(line: (nat, seq<nat>)): string
    requires |line.1| >= 1
  {
    Digits(line.0) + ": " + Digits(line.1[0]) + SpacedNumbers(line.1[1..])
  }

  /** Text after a number that does not extend it. */
  predicate EndsNumber(rest: string) {
    rest == [] || !IsDigit(rest[0])
  }

  lemma {:induction false} DigitRunOf(d: string, rest: string)
    requires AllDigits(d) && EndsNumber(rest)
    ensures DigitRun(d + rest) == |d|
  {
    if d != [] {
      assert (d + rest)[1..] == d[1..] + rest;
      DigitRunOf(d[1..], rest);
    }
  }

  lemma ParseNumberDigits(n: nat, rest: string)
    requires EndsNumber(rest)
    ensures ParseNumber(Digits(n) + rest) == Some((n, rest))
  {
    var d := Digits(n);
    DigitRunOf(d, rest);
    assert (d + rest)[..|d|] == d;
    assert (d + rest)[|d|..] == rest;
    DecimalValueOfDigits(n);
  }

  /** Text that ends a line: nothing, or a line break. */
  predicate EndsLine(rest: string) {
    rest == [] || rest[0] == '\n'
  }

  lemma {:induction false} MoreNumbersSpaced(ns: seq<nat>, rest: string)
    requires EndsLine(rest)
    ensures EndsNumber(SpacedNumbers(ns) + rest)
    ensures MoreNumbers(SpacedNumbers(ns) + rest) == (ns, rest)
  {
    if ns != [] {
      var tail := SpacedNumbers(ns[1..]) + rest;
      var s := SpacedNumbers(ns) + rest;
      assert s == " " + (Digits(ns[0]) + tail);
      assert s[1..] == Digits(ns[0]) + tail;
      MoreNumbersSpaced(ns[1..], rest);
      ParseNumberDigits(ns[0], tail);
      HeadTail(ns);
    } else {
      assert SpacedNumbers(ns) + rest == rest;
    }
  }

  /** Every well-formed line is read back as the test value and numbers that
      were written. */
  lemma ParseLineFormat(line: (nat, seq<nat>), rest: string)
    requires |line.1| >= 1 && EndsLine(rest)
    ensures ParseLine(FormatLine(line) + rest) == Some((line, rest))
  {
    var key, ns := line.0, line.1;
    FormatLineSplit(line, rest);
    ParseLineParts(key, ns, rest);
    HeadTail(ns);
  }

  lemma FormatLineSplit(line: (nat, seq<nat>), rest: string)
    requires |line.1| >= 1
    ensures FormatLine(line) + rest
         == Digits(line.0) + (": " + (Digits(line.1[0]) + (SpacedNumbers(line.1[1..]) + rest)))
  {
  }

  lemma ParseLineParts(key: nat, ns: seq<nat>, rest: string)
    requires |ns| >= 1 && EndsLine(rest)
    ensures var tail := SpacedNumbers(ns[1..]) + rest;
      ParseLine(Digits(key) + (": " + (Digits(ns[0]) + tail))) == Some(((key, [ns[0]] + ns[1..]), rest))
  {
    var tail := SpacedNumbers(ns[1..]) + rest;
    var r := ": " + (Digits(ns[0]) + tail);
    ParseNumberDigits(key, r);
    assert r[2..] == Digits(ns[0]) + tail;
    ParseNumberDigits(ns[0], tail);
    MoreNumbersSpaced(ns[1..], rest);
    assert r[..2] == ": ";
    ParseLineSteps(Digits(key) + r, key, r, ns[0], tail, ns[1..], rest);
  }

  /** How `parse_line` strings its three parsers together. */
  lemma ParseLineSteps(s: string, key: nat, r: string, first: nat, tail: string, more: seq<nat>, rest: string)
    requires ParseNumber(s) == Some((key, r))
    requires |r| >= 2 && r[..2] == ": "
    requires ParseNumber(r[2..]) == Some((first, tail))
    requires MoreNumbers(tail) == (more, rest)
    ensures ParseLine(s) == Some(((key, [first] + more), rest))
  {
  }

  /** Each line after the first, preceded by its line break. */
  function NewlineLines(lines: seq<(nat, seq<nat>)>): string
    requires forall i :: 0 <= i < |lines| ==> |lines[i].1| >= 1
  {
    if lines == [] then "" else "\n" + FormatLine(lines[0]) + NewlineLines(lines[1..])
  }

  /** Equations written one per line. */
  function FormatLines(lines: seq<(nat, seq<nat>)>): string
    requires |lines| >= 1 && forall i :: 0 <= i < |lines| ==> |lines[i].1| >= 1
  {
    FormatLine(lines[0]) + NewlineLines(lines[1..])
  }

  lemma {:induction false} MoreLinesNewline(lines: seq<(nat, seq<nat>)>, rest: string)
    requires forall i :: 0 <= i < |lines| ==> |lines[i].1| >= 1
    requires rest == [] || rest == "\n"
    ensures EndsLine(NewlineLines(lines) + rest)
    ensures MoreLines(NewlineLines(lines) + rest) == (lines, rest)
  {
    if lines != [] {
      var tail := NewlineLines(lines[1..]) + rest;
      var s := NewlineLines(lines) + rest;
      NewlineLinesSplit(lines, rest);
      MoreLinesNewline(lines[1..], rest);
      ParseLineFormat(lines[0], tail);
      MoreLinesStep(s, lines[0], tail, lines[1..], rest);
      HeadTail(lines);
    } else {
      assert NewlineLines(lines) + rest == rest;
      MoreLinesEnd(rest);
    }
  }

  lemma MoreLinesEnd(rest: string)
    requires rest == [] || rest == "\n"
    ensures MoreLines(rest) == ([], rest)
  {
    if rest == "\n" {
      assert rest[1..] == [];
    }
  }

  lemma NewlineLinesSplit(lines: seq<(nat, seq<nat>)>, rest: string)
    requires |lines| >= 1 && forall i :: 0 <= i < |lines| ==> |lines[i].1| >= 1
    ensures var s := NewlineLines(lines) + rest;
      |s| >= 1 && s[0] == '\n' && s[1..] == FormatLine(lines[0]) + (NewlineLines(lines[1..]) + rest)
  {
    NewlineLinesUnfold(lines, rest);
    ConsParts('\n', FormatLine(lines[0]) + (NewlineLines(lines[1..]) + rest));
  }

  lemma NewlineLinesUnfold(lines: seq<(nat, seq<nat>)>, rest: string)
    requires |lines| >= 1 && forall i :: 0 <= i < |lines| ==> |lines[i].1| >= 1
    ensures NewlineLines(lines) + rest == "\n" + (FormatLine(lines[0]) + (NewlineLines(lines[1..]) + rest))
  {
  }

  lemma ConsParts(c: char, tail: string)
    ensures |[c] + tail| >= 1 && ([c] + tail)[0] == c && ([c] + tail)[1..] == tail
  {
  }

  /** One round of the `("\n" line)*` loop. */
  lemma MoreLinesStep(s: string, line: (nat, seq<nat>), tail: string, lines: seq<(nat, seq<nat>)>, rest: string)
    requires |s| >= 1 && s[0] == '\n' && ParseLine(s[1..]) == Some((line, tail))
    requires MoreLines(tail) == (lines, rest)
    ensures MoreLines(s) == ([line] + lines, rest)
  {
  }

  /** The parser reads back every list of equations written one per line,
      with or without a final line break, and the map it builds keeps the
      last equation of each test value. */
  lemma ParseInputFormat(lines: seq<(nat, seq<nat>)>, rest: string)
    requires |lines| >= 1 && forall i :: 0 <= i < |lines| ==> |lines[i].1| >= 1
    requires rest == [] || rest == "\n"
    ensures ParseInput(FormatLines(lines) + rest) == Some((Collect(lines), rest))
  {
    var tail := NewlineLines(lines[1..]) + rest;
    assert FormatLines(lines) + rest == FormatLine(lines[0]) + tail;
    MoreLinesNewline(lines[1..], rest);
    ParseLineFormat(lines[0], tail);
    ParseInputSteps(FormatLine(lines[0]) + tail, lines[0], tail, lines[1..], rest);
    HeadTail(lines);
  }

  lemma HeadTail<T>(xs: seq<T>)
    requires |xs| >= 1
    ensures [xs[0]] + xs[1..] == xs
  {
  }

  /** How `parse_input` strings the first line and the rest together. */
  lemma ParseInputSteps(s: string, line: (nat, seq<nat>), tail: string, lines: seq<(nat, seq<nat>)>, rest: string)
    requires ParseLine(s) == Some((line, tail))
    requires MoreLines(tail) == (lines, rest)
    ensures ParseInput(s) == Some((Collect([line] + lines), rest))
  {
  }

  /** On such input both parts sum the solvable test values of the map. */
  lemma PartOfFormat(lines: seq<(nat, seq<nat>)>, rest: string, operators: seq<Operator>)
    requires |lines| >= 1 && forall i :: 0 <= i < |lines| ==> |lines[i].1| >= 1
    requires rest == [] || rest == "\n"
    ensures Part(FormatLines(lines) + rest, operators)
         == Some(SetSum(SolvableKeys(Collect(lines), operators), k => k))
  {
    ParseInputFormat(lines, rest);
  }

  // --- what a successful parse consumed

  /** One or more decimal digits; leading zeros are allowed. */
  predicate NumberText(t: string) {
    |t| >= 1 && AllDigits(t)
  }

  /** Digit texts, each preceded by a single space. */
  function SpacedTexts(ts: seq<string>): string {
    if ts == [] then "" else " " + ts[0] + SpacedTexts(ts[1..])
  }

  /** The numbers of a parsed list are the values of the digit texts read. */
  predicate ValuesOf(ns: seq<nat>, ts: seq<string>) {
    |ns| == |ts| && forall i :: 0 <= i < |ts| ==> NumberText(ts[i]) && ns[i] == DecimalValue(ts[i])
  }

  /** The numbers `MoreNumbers` reads were written as ` <digits>` each. */
  lemma {:induction false} MoreNumbersShape(s: string) returns (ts: seq<string>)
    ensures ValuesOf(MoreNumbers(s).0, ts)
    ensures s == SpacedTexts(ts) + MoreNumbers(s).1
    decreases |s|
  {
    if |s| >= 1 && s[0] == ' ' && ParseNumber(s[1..]).Some? {
      var t, n, rest := MoreNumbersStep(s);
      var more := MoreNumbersShape(rest);
      ts := ShapeCons(s, t, n, rest, more, MoreNumbers(rest).0, MoreNumbers(rest).1);
    } else {
      ts := [];
      assert SpacedTexts(ts) + s == s;
    }
  }

  /** `parse_number` fails exactly when no digit comes first; otherwise it
      consumes the whole run of digits, and the number is their value with
      any leading zeros ignored. */
  lemma ParseNumberShape(s: string)
    ensures ParseNumber(s).None? <==> s == [] || !IsDigit(s[0])
    ensures ParseNumber(s).Some? ==>
      var (n, rest) := ParseNumber(s).value;
      var k := |s| - |rest|;
      NumberText(s[..k]) && s == s[..k] + rest && EndsNumber(rest) && n == DecimalValue(s[..k])
  {
  }

  /** One ` <digits>` taken by `MoreNumbers`. */
  lemma MoreNumbersStep(s: string) returns (t: string, n: nat, rest: string)
    requires |s| >= 1 && s[0] == ' ' && ParseNumber(s[1..]).Some?
    ensures NumberText(t) && n == DecimalValue(t) && s == " " + t + rest && |rest| < |s|
    ensures MoreNumbers(s) == ([n] + MoreNumbers(rest).0, MoreNumbers(rest).1)
  {
    ParseNumberShape(s[1..]);
    n, rest := ParseNumber(s[1..]).value.0, ParseNumber(s[1..]).value.1;
    t := s[1..][..|s[1..]| - |rest|];
    assert s == " " + t + rest;
  }

  /** A ` <digits>` in front of a shaped list gives a longer shaped list. */
  lemma ShapeCons(s: string, t: string, n: nat, rest: string, more: seq<string>, ns: seq<nat>, r: string)
    returns (ts: seq<string>)
    requires NumberText(t) && n == DecimalValue(t) && s == " " + t + rest
    requires ValuesOf(ns, more) && rest == SpacedTexts(more) + r
    ensures ValuesOf([n] + ns, ts) && s == SpacedTexts(ts) + r
  {
    ts := ShapeJoin(t, n, more, ns);
    SpacedTextsCons(ts);
    assert s == " " + t + (SpacedTexts(more) + r);
  }

  lemma SpacedTextsCons(ts: seq<string>)
    requires |ts| >= 1
    ensures SpacedTexts(ts) == " " + ts[0] + SpacedTexts(ts[1..])
  {
  }


  /** A line `ParseLine` accepts was written `<digits>: <digits>( <digits>)*`,
      and each number it returns is the value of its digits, leading zeros
      and all: the converse of `ParseLineFormat`. */
  lemma ParseLineShape(s: string)
    requires ParseLine(s).Some?
    ensures var ((key, ns), rest) := ParseLine(s).value;
      exists kt, ts :: NumberText(kt) && key == DecimalValue(kt) && |ts| >= 1 && ValuesOf(ns, ts) &&
        s == kt + ": " + ts[0] + SpacedTexts(ts[1..]) + rest
  {
    var key, rest1, first, rest2 := ParseLineParsed(s);
    var kt := NumberTaken(s);
    var ft := NumberTaken(rest1[2..]);
    var more := MoreNumbersShape(rest2);
    var (ns, rest) := MoreNumbers(rest2);
    var ts := ShapeJoin(ft, first, more, ns);
    LineText(s, kt, rest1, ft, SpacedTexts(more), rest);
  }

  lemma LineText(s: string, kt: string, rest1: string, ft: string, spaced: string, rest: string)
    requires s == kt + rest1 && |rest1| >= 2 && rest1[..2] == ": " && rest1[2..] == ft + (spaced + rest)
    ensures s == kt + ": " + ft + spaced + rest
  {
    assert rest1 == rest1[..2] + rest1[2..];
  }

  lemma ParseLineParsed(s: string) returns (key: nat, rest1: string, first: nat, rest: string)
    requires ParseLine(s).Some?
    ensures ParseNumber(s) == Some((key, rest1)) && |rest1| >= 2 && rest1[..2] == ": "
    ensures ParseNumber(rest1[2..]) == Some((first, rest))
    ensures ParseLine(s) == Some(((key, [first] + MoreNumbers(rest).0), MoreNumbers(rest).1))
  {
    key, rest1 := ParseNumber(s).value.0, ParseNumber(s).value.1;
    first, rest := ParseNumber(rest1[2..]).value.0, ParseNumber(rest1[2..]).value.1;
  }

  /** The digits a successful `ParseNumber` consumed. */
  lemma NumberTaken(s: string) returns (t: string)
    requires ParseNumber(s).Some?
    ensures NumberText(t) && ParseNumber(s).value.0 == DecimalValue(t) && s == t + ParseNumber(s).value.1
  {
    ParseNumberShape(s);
    t := s[..|s| - |ParseNumber(s).value.1|];
  }

  lemma ShapeJoin(ft: string, first: nat, more: seq<string>, ns: seq<nat>) returns (ts: seq<string>)
    requires NumberText(ft) && first == DecimalValue(ft) && ValuesOf(ns, more)
    ensures |ts| >= 1 && ts[0] == ft && ts[1..] == more && ValuesOf([first] + ns, ts)
  {
    ts := [ft] + more;
    assert ts[1..] == more;
  }

}
