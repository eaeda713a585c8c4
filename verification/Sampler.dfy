/**
 Lemire's nearly divisionless sampler: random_bounded_nearlydivisionless32 and 64, for any modulus B = 2^L.

 A source of words is a function from draw numbers to words.
 */
module Sampler {
  import opened Arithmetic

  // What the sampler should do

  /** Plain rejection keeps a word when the low part of its product with s is at least B mod s. */
  predicate Accepted(B: nat, s: nat, x: nat)
    requires 0 < s < B
  {
    (x * s) % B >= B % s
  }

  /** The high word of a product. */
  function High(B: nat, product: nat): nat
    requires B > 0
  {
    product / B
  }

  function Pick(B: nat, s: nat, x: nat): nat
    requires 0 < s < B
  {
    High(B, x * s)
  }

  /**
   The value that plain rejection gives and the words it draws, from word i on.  The ghost a is the index of
   some accepted word; on a source without one the sampler never returns.
   */
  ghost function Plain(B: nat, s: nat, words: nat -> nat, i: nat, a: nat): (r: (nat, nat))
    requires 0 < s < B && i <= a && Accepted(B, s, words(a))
    decreases a - i
  {
    if Accepted(B, s, words(i)) then (Pick(B, s, words(i)), 1)
    else
      var (value, drawn) := Plain(B, s, words, i + 1, a);
      (value, drawn + 1)
  }

  /** Plain rejection gives the first accepted word's value, whichever witness it is told of. */
  lemma {:induction false} PlainIsFirst(B: nat, s: nat, words: nat -> nat, i: nat, a: nat)
    requires 0 < s < B && i <= a && Accepted(B, s, words(a))
    ensures var (value, drawn) := Plain(B, s, words, i, a);
            && 0 < drawn <= a - i + 1
            && Accepted(B, s, words(i + drawn - 1))
            && value == Pick(B, s, words(i + drawn - 1))
            && forall j | i <= j < i + drawn - 1 :: !Accepted(B, s, words(j))
    decreases a - i
  {
    hide Accepted, Pick;
    if !Accepted(B, s, words(i)) {
      PlainIsFirst(B, s, words, i + 1, a);
    }
  }

  // What the code does

  /** Unsigned negation in the word type: -s is B - s for s > 0, and 0 for s = 0. */
  function Negate(B: nat, s: nat): nat
    requires s < B
  {
    (B - s) % B
  }

  function Threshold(B: nat, s: nat): nat
    requires 0 < s < B
  {
    Negate(B, s) % s
  }

  /** A product below the threshold has the acceptable word ahead, or right at hand. */
  lemma StillAhead(B: nat, s: nat, words: nat -> nat, product: nat, i: nat, a: nat)
    requires 0 < s < B && product % B < Threshold(B, s)
    requires product % B >= B % s || (i <= a && Accepted(B, s, words(a)))
    ensures i <= a && Accepted(B, s, words(a))
    ensures words(i) * s >= 0
    ensures (words(i) * s) % B >= B % s || (i + 1 <= a && Accepted(B, s, words(a)))
  {
    ThresholdIsRemainder(B, s);
    MulLe(0, words(i), s);
  }

  /** The loop: redraw while the low word of the product is below the threshold. */
  ghost function Redraw(B: nat, s: nat, words: nat -> nat, product: nat, i: nat, a: nat): (r: (nat, nat))
    requires 0 < s < B
    requires product % B >= B % s || (i <= a && Accepted(B, s, words(a)))
    decreases a - i
  {
    if product % B < Threshold(B, s) then
      StillAhead(B, s, words, product, i, a);
      var (value, drawn) := Redraw(B, s, words, words(i) * s, i + 1, a);
      (value, drawn + 1)
    else (High(B, product), 0)
  }

  /** The whole function: the threshold is computed only when the low word is below s. */
  ghost function Fast(B: nat, s: nat, words: nat -> nat, i: nat, a: nat): (r: (nat, nat))
    requires 0 < s < B && i <= a && Accepted(B, s, words(a))
  {
    var product := words(i) * s;
    if product % B < s then
      var (value, drawn) := Redraw(B, s, words, product, i + 1, a);
      (value, drawn + 1)
    else (High(B, product), 1)
  }

  /** The wrapped (-s) % s is 2^L mod s. */
  lemma ThresholdIsRemainder(B: nat, s: nat)
    requires 0 < s < B
    ensures Threshold(B, s) == B % s
  {
    DivModUnique(B - s, B, 0, B - s);
    DivModUnique(s, s, 1, 0);
    ModEqual(B, B - s, s);
  }

  lemma {:induction false} RedrawIsPlain(B: nat, s: nat, words: nat -> nat, product: nat, i: nat, a: nat)
    requires 0 < s < B && product % B < B % s && i <= a && Accepted(B, s, words(a))
    ensures Redraw(B, s, words, product, i, a) == Plain(B, s, words, i, a)
    decreases a - i
  {
    ThresholdIsRemainder(B, s);
    if !Accepted(B, s, words(i)) {
      RedrawIsPlain(B, s, words, words(i) * s, i + 1, a);
    }
  }

  /** The fast path refines plain rejection: same value, same number of words, on every source that has an answer. */
  lemma FastIsPlain(B: nat, s: nat, words: nat -> nat, i: nat, a: nat)
    requires 0 < s < B && i <= a && Accepted(B, s, words(a))
    ensures Fast(B, s, words, i, a) == Plain(B, s, words, i, a)
  {
    ThresholdIsRemainder(B, s);
    if !Accepted(B, s, words(i)) {
      RedrawIsPlain(B, s, words, words(i) * s, i + 1, a);
    }
  }

  /** The state of the code's loop: drawn words have been taken, x is the last one, and only it may be accepted. */
  ghost predicate Drawing(B: nat, s: nat, words: nat -> nat, x: nat, drawn: nat, a: nat)
    requires 0 < s < B
  {
    && 0 < drawn <= a + 1
    && Accepted(B, s, words(a))
    && x == words(drawn - 1)
    && forall j | 0 <= j < drawn - 1 :: !Accepted(B, s, words(j))
  }

  lemma DrawingStarts(B: nat, s: nat, words: nat -> nat, a: nat)
    requires 0 < s < B && Accepted(B, s, words(a))
    ensures Drawing(B, s, words, words(0), 1, a)
  {
  }

  /** A product below the threshold leaves the loop drawing, and closer to the accepted word. */
  lemma DrawingGoesOn(B: nat, s: nat, words: nat -> nat, x: nat, drawn: nat, a: nat)
    requires 0 < s < B && Drawing(B, s, words, x, drawn, a)
    requires (x * s) % B < Threshold(B, s)
    ensures drawn <= a && Drawing(B, s, words, words(drawn), drawn + 1, a)
  {
    ThresholdIsRemainder(B, s);
  }

  /** There is only one first accepted word. */
  lemma SameFirst(B: nat, s: nat, words: nat -> nat, i: nat, j: nat)
    requires 0 < s < B && Accepted(B, s, words(i)) && Accepted(B, s, words(j))
    requires forall k | 0 <= k < i :: !Accepted(B, s, words(k))
    requires forall k | 0 <= k < j :: !Accepted(B, s, words(k))
    ensures i == j
  {
    hide Accepted;
  }

  /** A product whose low word reaches the threshold, or reaches s, ends it with plain rejection's answer. */
  lemma DrawingEnds(B: nat, s: nat, words: nat -> nat, x: nat, drawn: nat, a: nat)
    requires 0 < s < B && x < B && Drawing(B, s, words, x, drawn, a)
    requires (x * s) % B >= Threshold(B, s) || (x * s) % B >= s
    ensures Plain(B, s, words, 0, a) == ((x * s) / B, drawn)
    ensures (x * s) / B < s
  {
    ThresholdIsRemainder(B, s);
    PlainIsFirst(B, s, words, 0, a);
    PickInRange(B, s, x);
    SameFirst(B, s, words, drawn - 1, Plain(B, s, words, 0, a).1 - 1);
  }

  /** The product fits a word of twice the width, and the result is below the bound. */
  lemma PickInRange(B: nat, s: nat, x: nat)
    requires 0 < s < B && x < B
    ensures x * s < s * B < B * B
    ensures Pick(B, s, x) < s
  {
    var q := Pick(B, s, x);
    DivModParts(x * s, B);
    MulLe(x + 1, B, s);
    assert (x + 1) * s == x * s + s;
    assert B * s == s * B;
    MulLe(s + 1, B, B);
    assert (s + 1) * B == s * B + B;
    if q >= s {
      MulLe(s, q, B);
    }
  }

  // Counting words

  function Interval(a: nat, n: nat): (r: set<nat>)
    ensures forall x :: x in r <==> a <= x < a + n
    ensures |r| == n
  {
    if n == 0 then {} else Interval(a, n - 1) + {a + n - 1}
  }

  /** The words that give j. */
  function WordsFor(B: nat, s: nat, j: nat): set<nat>
    requires 0 < s < B
  {
    set x | x in Interval(0, B) && Accepted(B, s, x) && Pick(B, s, x) == j
  }

  function RejectedWords(B: nat, s: nat): set<nat>
    requires 0 < s < B
  {
    set x | x in Interval(0, B) && !Accepted(B, s, x)
  }

  /** The accepted products that give j fill a stretch of a whole number of multiples of s. */
  lemma AcceptedStretch(B: nat, s: nat, j: nat, x: nat)
    requires 0 < s < B
    ensures (Accepted(B, s, x) && Pick(B, s, x) == j) <==> j * B + B % s <= x * s < (j + 1) * B
  {
    DivModParts(x * s, B);
    assert (j + 1) * B == j * B + B;
    assert B % s < B;
    if j * B + B % s <= x * s < (j + 1) * B {
      DivModUnique(x * s, B, j, x * s - j * B);
    }
  }

  /** x * s reaches n just from the rounded-up quotient on. */
  lemma MultipleReaches(n: nat, s: nat, x: nat)
    requires s > 0
    ensures n <= x * s <==> CeilDiv(n, s) <= x
  {
    var c := CeilDiv(n, s);
    DivModParts(n + s - 1, s);
    assert c * s - s < n <= c * s;
    if c <= x {
      MulLe(c, x, s);
    } else {
      MulLe(x, c - 1, s);
      assert (c - 1) * s == c * s - s;
    }
  }

  /** Each of the s results is given by exactly floor(2^L / s) words. */
  lemma Uniform(B: nat, s: nat, j: nat)
    requires 0 < s < B && j < s
    ensures |WordsFor(B, s, j)| == B / s
  {
    var lo, q := j * B + B % s, B / s;
    var first := CeilDiv(lo, s);
    DivModParts(B, s);
    assert (j + 1) * B == lo + q * s by {
      assert (j + 1) * B == j * B + B;
    }
    assert CeilDiv(lo + q * s, s) == first + q by {
      DivModParts(lo + s - 1, s);
      assert (first + q) * s == first * s + q * s;
      DivModUnique(lo + q * s + s - 1, s, first + q, (lo + s - 1) % s);
    }
    forall x: nat
      ensures x in WordsFor(B, s, j) <==> x in Interval(first, q)
    {
      AcceptedStretch(B, s, j, x);
      MultipleReaches(lo, s, x);
      MultipleReaches(lo + q * s, s, x);
      MulLe(j + 1, s, B);
      if x >= B {
        MulLe(B, x, s);
      }
    }
    assert WordsFor(B, s, j) == Interval(first, q);
  }

  /** Words are accepted for a result, or rejected: B of them in all. */
  function AcceptedBelow(B: nat, s: nat, n: nat): set<nat>
    requires 0 < s < B
  {
    set x | x in Interval(0, B) && Accepted(B, s, x) && Pick(B, s, x) < n
  }

  lemma {:induction false} CountAccepted(B: nat, s: nat, n: nat)
    requires 0 < s < B && n <= s
    ensures |AcceptedBelow(B, s, n)| == n * (B / s)
  {
    if n == 0 {
      assert AcceptedBelow(B, s, n) == {};
    } else {
      CountAccepted(B, s, n - 1);
      Uniform(B, s, n - 1);
      assert AcceptedBelow(B, s, n) == AcceptedBelow(B, s, n - 1) + WordsFor(B, s, n - 1);
      assert AcceptedBelow(B, s, n - 1) !! WordsFor(B, s, n - 1);
      assert n * (B / s) == (n - 1) * (B / s) + B / s;
    }
  }

  lemma RemainderBelowHalf(B: nat, s: nat)
    requires 0 < s < B
    ensures 2 * (B % s) < B && B - s * (B / s) == B % s
  {
    DivModParts(B, s);
    if B / s < 1 {
      MulLe(B / s, 0, s);
    } else {
      MulLe(1, B / s, s);
    }
  }

  /** Exactly 2^L mod s words are rejected, fewer than half of them all. */
  lemma CountRejected(B: nat, s: nat)
    requires 0 < s < B
    ensures |RejectedWords(B, s)| == B % s
    ensures 2 * |RejectedWords(B, s)| < B
  {
    hide Accepted, Pick, Interval;
    CountAccepted(B, s, s);
    RemainderBelowHalf(B, s);
    forall x | x in Interval(0, B)
      ensures Pick(B, s, x) < s
    {
      PickInRange(B, s, x);
    }
    assert RejectedWords(B, s) + AcceptedBelow(B, s, s) == Interval(0, B);
    assert RejectedWords(B, s) !! AcceptedBelow(B, s, s);
  }

  // Runs of rejections

  function Power(b: nat, k: nat): nat {
    if k == 0 then 1 else b * Power(b, k - 1)
  }

  /** Every sequence of ts with an element of xs put before it. */
  function Prepend(xs: set<nat>, ts: set<seq<nat>>): set<seq<nat>> {
    set x, t | x in xs && t in ts :: [x] + t
  }

  lemma {:induction false} PrependOne(x: nat, ts: set<seq<nat>>)
    ensures |Prepend({x}, ts)| == |ts|
    decreases |ts|
  {
    if ts == {} {
      assert Prepend({x}, ts) == {};
    } else {
      var t :| t in ts;
      PrependOne(x, ts - {t});
      var rest := Prepend({x}, ts - {t});
      forall u | u in ts - {t}
        ensures [x] + u != [x] + t
      {
        assert ([x] + u)[1..] == u && ([x] + t)[1..] == t;
      }
      assert [x] + t !in rest;
      forall u
        ensures u in Prepend({x}, ts) <==> u in rest + {[x] + t}
      {
        if u in Prepend({x}, ts) {
          var v :| v in ts && u == [x] + v;
          assert v == t || v in ts - {t};
        }
      }
      assert Prepend({x}, ts) == rest + {[x] + t};
    }
  }

  lemma PrependIs(xs: set<nat>, ts: set<seq<nat>>, run: seq<nat>)
    ensures run in Prepend(xs, ts) <==> |run| > 0 && run[0] in xs && run[1..] in ts
  {
    if |run| > 0 {
      assert run == [run[0]] + run[1..];
    }
    if run in Prepend(xs, ts) {
      var x, t :| x in xs && t in ts && run == [x] + t;
      assert run[1..] == t;
    }
  }

  lemma {:induction false} PrependSize(xs: set<nat>, ts: set<seq<nat>>)
    ensures |Prepend(xs, ts)| == |xs| * |ts|
    decreases |xs|
  {
    hide Prepend;
    if xs == {} {
      PrependNone(ts);
    } else {
      var x :| x in xs;
      var rest := xs - {x};
      PrependSize(rest, ts);
      PrependOne(x, ts);
      var most, some := Prepend(rest, ts), Prepend({x}, ts);
      forall u
        ensures u in Prepend(xs, ts) <==> u in most + some
        ensures !(u in most && u in some)
      {
        PrependIs(xs, ts, u);
        PrependIs(rest, ts, u);
        PrependIs({x}, ts, u);
      }
      assert Prepend(xs, ts) == most + some && most !! some;
      assert |xs| == |rest| + 1;
      assert (|rest| + 1) * |ts| == |rest| * |ts| + |ts|;
    }
  }

  lemma PrependNone(ts: set<seq<nat>>)
    ensures |Prepend({}, ts)| == 0
  {
    assert Prepend({}, ts) == {};
  }

  /** The k-word sequences that are rejected throughout. */
  function RejectedRuns(B: nat, s: nat, k: nat): set<seq<nat>>
    requires 0 < s < B
  {
    if k == 0 then {[]} else Prepend(RejectedWords(B, s), RejectedRuns(B, s, k - 1))
  }

  lemma {:induction false} RejectedRunsAre(B: nat, s: nat, k: nat, run: seq<nat>)
    requires 0 < s < B
    ensures run in RejectedRuns(B, s, k) <==>
            |run| == k && forall i | 0 <= i < k :: run[i] < B && !Accepted(B, s, run[i])
  {
    hide Accepted;
    if k != 0 {
      if |run| == k {
        assert run == [run[0]] + run[1..];
        RejectedRunsAre(B, s, k - 1, run[1..]);
      } else if run in RejectedRuns(B, s, k) {
        var x, t :| x in RejectedWords(B, s) && t in RejectedRuns(B, s, k - 1) && run == [x] + t;
        RejectedRunsAre(B, s, k - 1, t);
      }
    }
  }

  /** Exactly (2^L mod s)^k of the k-word sequences keep the sampler looping. */
  lemma {:induction false} CountRejectedRuns(B: nat, s: nat, k: nat)
    requires 0 < s < B
    ensures |RejectedRuns(B, s, k)| == Power(B % s, k)
  {
    if k != 0 {
      CountRejectedRuns(B, s, k - 1);
      CountRejected(B, s);
      PrependSize(RejectedWords(B, s), RejectedRuns(B, s, k - 1));
    }
  }

  // Runs that return a given result

  /** All sequences of k words. */
  function WordRuns(B: nat, k: nat): set<seq<nat>> {
    if k == 0 then {[]} else Prepend(Interval(0, B), WordRuns(B, k - 1))
  }

  /** The k-word sequences on which the sampler returns j: at once, or after a rejected word. */
  function RunsFor(B: nat, s: nat, k: nat, j: nat): set<seq<nat>>
    requires 0 < s < B
  {
    if k == 0 then {}
    else Prepend(WordsFor(B, s, j), WordRuns(B, k - 1)) + Prepend(RejectedWords(B, s), RunsFor(B, s, k - 1, j))
  }

  lemma {:induction false} WordRunsAre(B: nat, k: nat, run: seq<nat>)
    ensures run in WordRuns(B, k) <==> |run| == k && forall i | 0 <= i < k :: run[i] < B
  {
    hide Prepend, Interval;
    if k != 0 {
      PrependIs(Interval(0, B), WordRuns(B, k - 1), run);
      if |run| > 0 {
        WordRunsAre(B, k - 1, run[1..]);
        assert forall i | 0 < i < |run| :: run[i] == run[1..][i - 1];
      }
    }
  }

  /** The first accepted word of the run is word i, and it gives j. */
  ghost predicate ReturnsAt(B: nat, s: nat, run: seq<nat>, j: nat, i: nat)
    requires 0 < s < B
  {
    i < |run| && Accepted(B, s, run[i]) && Pick(B, s, run[i]) == j && forall m | 0 <= m < i :: !Accepted(B, s, run[m])
  }

  /** They are the k-word sequences on which plain rejection, whatever words follow, gives j within the k words. */
  lemma {:induction false} RunsForAre(B: nat, s: nat, k: nat, j: nat, run: seq<nat>)
    requires 0 < s < B
    ensures run in RunsFor(B, s, k, j) <==>
            |run| == k && (forall i | 0 <= i < k :: run[i] < B) && exists i :: ReturnsAt(B, s, run, j, i)
    decreases k
  {
    hide Accepted, Pick, Prepend, Interval;
    if k != 0 {
      var most := RunsFor(B, s, k - 1, j);
      PrependIs(WordsFor(B, s, j), WordRuns(B, k - 1), run);
      PrependIs(RejectedWords(B, s), most, run);
      if |run| > 0 {
        var rest := run[1..];
        WordRunsAre(B, k - 1, rest);
        RunsForAre(B, s, k - 1, j, rest);
        assert forall i | 0 < i < |run| :: run[i] == rest[i - 1];
        ReturnsLater(B, s, run, j);
      }
    }
  }

  /** A run returns j at its first word, or rejects that and returns j later. */
  lemma ReturnsLater(B: nat, s: nat, run: seq<nat>, j: nat)
    requires 0 < s < B && |run| > 0
    ensures (exists i :: ReturnsAt(B, s, run, j, i)) <==>
            || (Accepted(B, s, run[0]) && Pick(B, s, run[0]) == j)
            || (!Accepted(B, s, run[0]) && exists i :: ReturnsAt(B, s, run[1..], j, i))
  {
    hide Accepted, Pick;
    var rest := run[1..];
    if Accepted(B, s, run[0]) && Pick(B, s, run[0]) == j {
      assert ReturnsAt(B, s, run, j, 0);
    }
    if i: nat :| !Accepted(B, s, run[0]) && ReturnsAt(B, s, rest, j, i) {
      assert ReturnsAt(B, s, run, j, i + 1);
    }
    if i: nat :| i > 0 && ReturnsAt(B, s, run, j, i) {
      assert rest[i - 1] == run[i];
      assert forall m | 0 <= m < i - 1 :: rest[m] == run[m + 1];
      assert ReturnsAt(B, s, rest, j, i - 1);
    }
  }

  /** And that is what the sampler returns on any source that begins with the run. */
  lemma RunDecides(B: nat, s: nat, run: seq<nat>, j: nat, i: nat, words: nat -> nat)
    requires 0 < s < B && ReturnsAt(B, s, run, j, i)
    requires forall m: nat | m < |run| :: words(m) == run[m]
    ensures Accepted(B, s, words(i)) && Fast(B, s, words, 0, i) == (j, i + 1)
  {
    hide Accepted, Pick, Fast;
    FastIsPlain(B, s, words, 0, i);
    PlainIsFirst(B, s, words, 0, i);
    SameFirst(B, s, words, i, Plain(B, s, words, 0, i).1 - 1);
  }

  lemma {:induction false} CountWordRuns(B: nat, k: nat)
    ensures |WordRuns(B, k)| == Power(B, k)
  {
    hide Prepend, Interval;
    if k != 0 {
      CountWordRuns(B, k - 1);
      PrependSize(Interval(0, B), WordRuns(B, k - 1));
    }
  }

  /** The sum over i < n of r^i B^(k - 1 - i). */
  function GeometricSum(r: nat, B: nat, k: nat, n: nat): nat
    requires n <= k
  {
    if n == 0 then 0 else GeometricSum(r, B, k, n - 1) + Power(r, n - 1) * Power(B, k - n)
  }

  /** Taking the first term out leaves r times the sum for one word less. */
  lemma {:induction false} GeometricStep(r: nat, B: nat, k: nat, n: nat)
    requires 0 < n <= k
    ensures GeometricSum(r, B, k, n) == Power(B, k - 1) + r * GeometricSum(r, B, k - 1, n - 1)
  {
    if n > 1 {
      GeometricStep(r, B, k, n - 1);
      MulAssoc(r, Power(r, n - 2), Power(B, k - n));
      var sum, term := GeometricSum(r, B, k - 1, n - 2), Power(r, n - 2) * Power(B, k - n);
      assert r * (sum + term) == r * sum + r * term;
    } else {
      assert GeometricSum(r, B, k, 0) == 0 && Power(r, 0) == 1;
    }
  }

  /**
   For every result j alike, exactly floor(2^L / s) times the sum over i < k of (2^L mod s)^i (2^L)^(k - 1 - i) of
   the k-word sequences make the sampler return j.
   */
  lemma {:induction false} CountRunsFor(B: nat, s: nat, k: nat, j: nat)
    requires 0 < s < B && j < s
    ensures |RunsFor(B, s, k, j)| == (B / s) * GeometricSum(B % s, B, k, k)
    decreases k
  {
    hide Accepted, Pick, Prepend, Interval, GeometricSum;
    if k == 0 {
      GeometricNil(B % s, B);
    } else {
      var now, later := WordsFor(B, s, j), RejectedWords(B, s);
      var all, most := WordRuns(B, k - 1), RunsFor(B, s, k - 1, j);
      CountRunsFor(B, s, k - 1, j);
      CountWordRuns(B, k - 1);
      Uniform(B, s, j);
      CountRejected(B, s);
      PrependSize(now, all);
      PrependSize(later, most);
      forall run | run in Prepend(now, all)
        ensures run !in Prepend(later, most)
      {
        PrependIs(now, all, run);
        PrependIs(later, most, run);
      }
      assert Prepend(now, all) !! Prepend(later, most);
      GeometricStep(B % s, B, k, k);
      Gather(B / s, B % s, Power(B, k - 1), GeometricSum(B % s, B, k - 1, k - 1));
    }
  }

  lemma GeometricNil(r: nat, B: nat)
    ensures GeometricSum(r, B, 0, 0) == 0
  {
  }

  lemma Gather(q: nat, r: nat, p: nat, g: nat)
    ensures q * p + r * (q * g) == q * (p + r * g)
  {
    MulAssoc(r, q, g);
    MulAssoc(q, r, g);
    assert q * (p + r * g) == q * p + q * (r * g);
  }
}
