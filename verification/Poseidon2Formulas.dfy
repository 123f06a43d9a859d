/** What the permutation and the sponge compute, in plain integer arithmetic reduced once at the end. */
module Poseidon2Formulas {
  import opened Common
  import opened Poseidon2Reference

  /** The seventh power, unreduced. */
  function Seventh(x: nat): nat {
    x * x * x * x * x * x * x
  }

  /** `sum of weights[i] * s[i]` over the first `n` lanes, unreduced. */
  function Weighted(weights: seq<nat>, s: seq<nat>, n: nat): nat
    requires n <= |weights| && n <= |s|
  {
    if n == 0 then 0 else Weighted(weights, s, n - 1) + weights[n - 1] * s[n - 1]
  }

  lemma ReduceProduct(x: nat, y: nat)
    ensures Multiply(x % MODULUS, y % MODULUS) == x * y % MODULUS
  {
    ReduceFactor(x, y % MODULUS);
    assert Multiply(x, y % MODULUS) == Multiply(y % MODULUS, x) by { Commutes(x, y % MODULUS); }
    ReduceFactor(y, x);
    Commutes(y, x);
  }

  lemma Commutes(x: nat, y: nat)
    ensures Multiply(x, y) == Multiply(y, x)
  {
  }

  /** The S-box is the seventh power modulo the prime, of the reduced lane or of any integer with its remainder. */
  lemma SboxIsSeventhPower(x: nat)
    ensures SboxSeven(x) == Seventh(x) % MODULUS
    ensures SboxSeven(x % MODULUS) == SboxSeven(x)
  {
    var two, four := x * x, x * x * (x * x);
    ReduceProduct(two, two);
    ReduceProduct(four, two);
    ReduceFactor(four * two, x);
    SevenFactors(x);
    ReduceProduct(x, x);
    var six := Multiply(SboxFourth(x), Multiply(x, x));
    Commutes(six, x % MODULUS);
    ReduceFactor(x, six);
    Commutes(x, six);
  }

  function SboxFourth(x: nat): nat {
    Multiply(Multiply(x, x), Multiply(x, x))
  }

  lemma SevenFactors(x: nat)
    ensures x * x * (x * x) * (x * x) * x == Seventh(x)
  {
    var y := x * x;
    Regroup(y, x, x);
    Regroup(y * x * x, x, x);
  }

  lemma Regroup(a: nat, b: nat, c: nat)
    ensures a * (b * c) == a * b * c
  {
  }

  /** The running modular row product is the integer sum, reduced once; only remainders of the lanes matter. */
  lemma {:induction false} RowIsWeighted(row: seq<nat>, s: seq<nat>, t: seq<nat>, n: nat)
    requires n <= |row| && n <= |s| == |t| && forall i | 0 <= i < n :: s[i] % MODULUS == t[i] % MODULUS
    ensures RowDot(row, s, n) == Weighted(row, t, n) % MODULUS
  {
    if n > 0 {
      RowIsWeighted(row, s, t, n - 1);
      var w := row[n - 1];
      ReduceProduct(w, s[n - 1]);
      ReduceProduct(w, t[n - 1]);
      AddReduced(Weighted(row, t, n - 1), w * t[n - 1]);
    }
  }

  lemma AddReduced(a: nat, b: nat)
    ensures Add(a % MODULUS, b % MODULUS) == (a + b) % MODULUS
  {
  }

  /** Lane `lane` of a matrix layer over any integers with the state's remainders. */
  lemma MatrixLane(values: seq<nat>, offset: nat, s: seq<nat>, t: seq<nat>, lane: nat)
    requires offset + WIDTH * WIDTH <= |values| && |s| == |t| == WIDTH && lane < WIDTH
    requires forall i | 0 <= i < WIDTH :: s[i] % MODULUS == t[i] % MODULUS
    ensures MatVec(values, offset, s)[lane] ==
            Weighted(values[offset + 24 * lane..offset + 24 * lane + 24], t, 24) % MODULUS
  {
    var row := Row(values, offset, lane);
    assert row == values[offset + 24 * lane..offset + 24 * lane + 24];
    RowIsWeighted(row, s, t, WIDTH);
  }

  /** `(s[i] + constants[i])^7` in every lane, unreduced. */
  function Powers(s: seq<nat>, constants: seq<nat>): seq<nat>
    requires |s| == |constants|
  {
    seq(|s|, i requires 0 <= i < |s| => Seventh(s[i] + constants[i]))
  }

  /** Rounds 4 to 24 raise only lane zero and apply the internal matrix; the other eight raise every lane and apply
      the external one. Round constants, matrices and their places in the parameters are written out. */
  lemma RoundFormula(values: seq<nat>, round: nat, s: seq<nat>, lane: nat)
    requires |values| == PARAMETER_COUNT && round < 29 && |s| == 24 && lane < 24
    ensures 4 <= round < 25 ==>
              Round(values, round, s)[lane] ==
                Weighted(values[600 + 24 * lane..600 + 24 * lane + 24],
                         s[0 := Seventh(s[0] + values[1176 + 24 * round])], 24) % MODULUS
    ensures !(4 <= round < 25) ==>
              Round(values, round, s)[lane] ==
                Weighted(values[24 + 24 * lane..24 + 24 * lane + 24],
                         Powers(s, values[1176 + 24 * round..1176 + 24 * round + 24]), 24) % MODULUS
  {
    var constants := values[1176 + 24 * round..1176 + 24 * round + 24];
    assert Constants(values, round) == constants;
    if 4 <= round < 25 {
      RaisedLane(s[0], constants[0]);
      MatrixLane(values, INTERNAL_OFFSET, s[0 := SboxSeven(Add(s[0], constants[0]))],
                 s[0 := Seventh(s[0] + constants[0])], lane);
    } else {
      var raised := SboxAll(AddConstants(s, constants));
      forall i | 0 <= i < 24 ensures raised[i] % MODULUS == Powers(s, constants)[i] % MODULUS {
        RaisedLane(s[i], constants[i]);
      }
      MatrixLane(values, EXTERNAL_OFFSET, raised, Powers(s, constants), lane);
    }
  }

  lemma RaisedLane(x: nat, constant: nat)
    ensures SboxSeven(Add(x, constant)) % MODULUS == Seventh(x + constant) % MODULUS
  {
    hide SboxSeven, Seventh, Add;
    var sum := x + constant;
    SboxIsSeventhPower(sum);
    SumReduced(x, constant);
    TwiceReduced(Seventh(sum));
  }

  lemma SumReduced(x: nat, y: nat)
    ensures Add(x, y) == (x + y) % MODULUS
  {
  }

  lemma TwiceReduced(x: nat)
    ensures x % MODULUS % MODULUS == x % MODULUS
  {
  }

  /** The permutation is the external matrix once, then the 29 rounds in order. */
  lemma PermutationFormula(values: seq<nat>, s: seq<nat>, lane: nat, n: nat)
    requires |values| == PARAMETER_COUNT && |s| == 24 && lane < 24 && n < 29
    ensures Rounds(values, 0, s)[lane] == Weighted(values[24 + 24 * lane..24 + 24 * lane + 24], s, 24) % MODULUS
    ensures Rounds(values, n + 1, s) == Round(values, n, Rounds(values, n, s))
    ensures Permute(values, s) == Rounds(values, 29, s)
  {
    MatrixLane(values, EXTERNAL_OFFSET, s, s, lane);
  }

  /** The state before any input: an empty rate, then the domain's nine initial elements. */
  function Start(values: seq<nat>, first: nat): seq<nat>
    requires first + 9 <= |values|
  {
    [0, 0, 0, 0, 0, 0, 0, 0, 0, 0, 0, 0, 0, 0, 0] + values[first..first + 9]
  }

  /** Fifteen lanes of the state, then lane zero of one more permutation. */
  function Squeezed(values: seq<nat>, s: seq<nat>): seq<nat>
    requires |values| == PARAMETER_COUNT && |s| == 24
  {
    s[..15] + [Permute(values, s)[0]]
  }

  /** The three hashes unrolled: an empty leaf permutes once, a note is absorbed in blocks of 15 and 1 elements, a
      pair of children in blocks of 15, 15 and 2. */
  lemma HashFormula(values: seq<nat>, note: seq<nat>, children: seq<nat>)
    requires |values| == PARAMETER_COUNT && |note| == 16 && |children| == 32
    ensures Hash16(values, EmptyBase, []) == Squeezed(values, Permute(values, Start(values, 1890)))
    ensures var one := Permute(values, AddBlock(Start(values, 1872), note[..15]));
            Hash16(values, Leaf, note) == Squeezed(values, Permute(values, AddBlock(one, note[15..])))
    ensures var one := Permute(values, AddBlock(Start(values, 1881), children[..15]));
            var two := Permute(values, AddBlock(one, children[15..30]));
            Hash16(values, Node, children) == Squeezed(values, Permute(values, AddBlock(two, children[30..])))
  {
    hide Permute, AddBlock;
    StartOf(values);
    AbsorbOne(values, Start(values, 1872), note);
    var one := Permute(values, AddBlock(Start(values, 1872), note[..15]));
    AbsorbLast(values, one, note[15..]);
    AbsorbOne(values, Start(values, 1881), children);
    var first := Permute(values, AddBlock(Start(values, 1881), children[..15]));
    AbsorbOne(values, first, children[15..]);
    assert children[15..][..15] == children[15..30] && children[15..][15..] == children[30..];
    AbsorbLast(values, Permute(values, AddBlock(first, children[15..30])), children[30..]);
  }

  lemma StartOf(values: seq<nat>)
    requires |values| == PARAMETER_COUNT
    ensures InitialState(values, Leaf) == Start(values, 1872) && InitialState(values, Node) == Start(values, 1881)
    ensures InitialState(values, EmptyBase) == Start(values, 1890)
  {
    assert seq(RATE, _ => 0) == [0, 0, 0, 0, 0, 0, 0, 0, 0, 0, 0, 0, 0, 0, 0];
  }

  lemma AbsorbOne(values: seq<nat>, s: seq<nat>, input: seq<nat>)
    requires |values| == PARAMETER_COUNT && |s| == WIDTH && |input| > 15
    ensures Absorb(values, s, input) == Absorb(values, Permute(values, AddBlock(s, input[..15])), input[15..])
  {
    hide Permute, AddBlock;
  }

  lemma AbsorbLast(values: seq<nat>, s: seq<nat>, input: seq<nat>)
    requires |values| == PARAMETER_COUNT && |s| == WIDTH && 0 < |input| <= 15
    ensures Absorb(values, s, input) == Permute(values, AddBlock(s, input))
  {
    hide Permute, AddBlock;
    assert input[..|input|] == input && input[|input|..] == [];
  }

  /** Absorbing a block adds it, lane by lane modulo the prime, and leaves the other lanes. */
  lemma BlockLanes(s: seq<nat>, block: seq<nat>, lane: nat)
    requires |s| == 24 && |block| <= 15 && lane < 24
    ensures AddBlock(s, block)[lane] == if lane < |block| then (s[lane] + block[lane]) % 2013265921 else s[lane]
  {
  }
}
