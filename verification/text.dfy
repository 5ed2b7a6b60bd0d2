/** Rune-level building blocks of the screenshot path sanitiser.

    Go matches a regular expression against the runes of a string, so a
    string is modelled as a sequence of runes (`seq<char>`). The three
    rewriting steps the sanitiser uses are defined here once, generically:
    - `ReplaceOutside`: `regexp.ReplaceAllString` with a negated character
      class `[^...]`, which rewrites every rune outside the class to `-`;
    - `CollapseRuns`: `regexp.ReplaceAllString` with the pattern `c+`, which
      rewrites every maximal run of the rune `c` to a single `c`;
    - `TrimSuffix`: `strings.TrimSuffix` with a one-rune suffix.

    Every function is defined by recursion on the last rune, so that the
    lemmas below can peel one rune at a time.
 */
module Text {

  /** The rune the negated character classes are replaced with. */
  const Dash: char := '-'

  /** Every rune of `s` satisfies `p`. */
  predicate All(s: string, p: char -> bool) {
    forall i :: 0 <= i < |s| ==> p(s[i])
  }

  /** Rune `a` is never immediately followed by rune `b` in `s`. */
  predicate NoPair(s: string, a: char, b: char) {
    forall i :: 0 <= i < |s| - 1 ==> !(s[i] == a && s[i + 1] == b)
  }

  /** `s` is non-empty and its last rune is `c`. */
  predicate EndsWith(s: string, c: char) {
    |s| > 0 && s[|s| - 1] == c
  }

  /** Number of occurrences of the rune `c` in `s`. */
  function Count(s: string, c: char): nat {
    if |s| == 0 then 0
    else Count(s[..|s| - 1], c) + (if s[|s| - 1] == c then 1 else 0)
  }

  /** `s` with every occurrence of the rune `c` deleted. */
  function Erase(s: string, c: char): string {
    if |s| == 0 then []
    else Erase(s[..|s| - 1], c) + (if s[|s| - 1] == c then [] else [s[|s| - 1]])
  }

  /** Every rune of `s` outside the class `allowed` becomes `-`; every rune
      inside it stays where it is. */
  function ReplaceOutside(s: string, allowed: char -> bool): (r: string)
    ensures |r| == |s|
    ensures forall i :: 0 <= i < |s| && allowed(s[i]) ==> r[i] == s[i]
    ensures forall i :: 0 <= i < |s| && !allowed(s[i]) ==> r[i] == Dash
  {
    if |s| == 0 then []
    else
      var last := if allowed(s[|s| - 1]) then s[|s| - 1] else Dash;
      ReplaceOutside(s[..|s| - 1], allowed) + [last]
  }

  /** Every maximal run of the rune `c` is rewritten to one `c`: a rune is
      dropped exactly when it is a `c` that follows another `c`. The result
      never holds two adjacent `c`s and ends with the same rune as `s`. */
  function CollapseRuns(s: string, c: char): (r: string)
    ensures |r| <= |s|
    ensures |s| > 0 ==> |r| > 0 && r[|r| - 1] == s[|s| - 1]
    ensures NoPair(r, c, c)
  {
    if |s| == 0 then []
    else
      var front := CollapseRuns(s[..|s| - 1], c);
      if |s| >= 2 && s[|s| - 2] == c && s[|s| - 1] == c then front
      else front + [s[|s| - 1]]
  }

  /** `s` without its last rune when that rune is `c`; `s` otherwise. */
  function TrimSuffix(s: string, c: char): (r: string)
    ensures EndsWith(s, c) ==> r + [c] == s
    ensures !EndsWith(s, c) ==> r == s
  {
    if EndsWith(s, c) then s[..|s| - 1] else s
  }

  // ---------------------------------------------------------------------
  // Counting and erasing over concatenation
  // ---------------------------------------------------------------------

  lemma {:induction false} CountAppend(a: string, b: string, c: char)
    ensures Count(a + b, c) == Count(a, c) + Count(b, c)
    decreases |b|
  {
    if |b| > 0 {
      assert (a + b)[..|a + b| - 1] == a + b[..|b| - 1];
      CountAppend(a, b[..|b| - 1], c);
    } else {
      assert a + b == a;
    }
  }

  /** A string none of whose runes is `c` holds no `c`. */
  lemma {:induction false} CountAbsent(s: string, c: char, p: char -> bool)
    requires All(s, p)
    requires !p(c)
    ensures Count(s, c) == 0
    decreases |s|
  {
    if |s| > 0 {
      CountAbsent(s[..|s| - 1], c, p);
    }
  }

  /** Replacing runes outside a class that holds `c` neither adds nor
      removes a `c`. */
  lemma {:induction false} ReplaceOutsideCount(s: string, allowed: char -> bool, c: char)
    requires allowed(c)
    requires c != Dash
    ensures Count(ReplaceOutside(s, allowed), c) == Count(s, c)
    decreases |s|
  {
    if |s| > 0 {
      ReplaceOutsideCount(s[..|s| - 1], allowed, c);
    }
  }

  /** After replacement every rune lies in the class, provided the class
      holds the replacement rune `-`. */
  lemma ReplaceOutsideAll(s: string, allowed: char -> bool)
    requires allowed(Dash)
    ensures All(ReplaceOutside(s, allowed), allowed)
  {
  }

  /** A string is left unchanged by replacement exactly when it already lies
      inside the class, provided the class holds `-`. */
  lemma ReplaceOutsideFixpoint(s: string, allowed: char -> bool)
    requires allowed(Dash)
    ensures ReplaceOutside(s, allowed) == s <==> All(s, allowed)
  {
  }

  // ---------------------------------------------------------------------
  // Run collapsing
  // ---------------------------------------------------------------------

  /** Collapsing runs of `c` introduces no adjacent pair `a b` that was not
      already in `s`: every adjacency it creates joins a `c` to the rune
      that followed the run's last `c`. */
  lemma {:induction false} CollapseRunsKeepsNoPair(s: string, c: char, a: char, b: char)
    requires NoPair(s, a, b)
    ensures NoPair(CollapseRuns(s, c), a, b)
    decreases |s|
  {
    if |s| > 0 {
      var init := s[..|s| - 1];
      assert NoPair(init, a, b) by {
        forall i | 0 <= i < |init| - 1
          ensures !(init[i] == a && init[i + 1] == b)
        {
          assert init[i] == s[i] && init[i + 1] == s[i + 1];
        }
      }
      CollapseRunsKeepsNoPair(init, c, a, b);
      var front := CollapseRuns(init, c);
      var r := CollapseRuns(s, c);
      if r != front {
        assert r == front + [s[|s| - 1]];
        forall i | 0 <= i < |r| - 1
          ensures !(r[i] == a && r[i + 1] == b)
        {
          if i == |front| - 1 {
            assert r[i] == s[|s| - 2] && r[i + 1] == s[|s| - 1];
          } else {
            assert r[i] == front[i] && r[i + 1] == front[i + 1];
          }
        }
      }
    }
  }

  /** Collapsing runs only drops runes, so it keeps a string inside any
      class. */
  lemma {:induction false} CollapseRunsKeepsAll(s: string, c: char, p: char -> bool)
    requires All(s, p)
    ensures All(CollapseRuns(s, c), p)
    decreases |s|
  {
    if |s| > 0 {
      CollapseRunsKeepsAll(s[..|s| - 1], c, p);
    }
  }

  /** Collapsing runs of `c` keeps every other rune, in order: erasing `c`
      from the result gives what erasing `c` from the input gives. */
  lemma {:induction false} CollapseRunsErase(s: string, c: char)
    ensures Erase(CollapseRuns(s, c), c) == Erase(s, c)
    decreases |s|
  {
    if |s| > 0 {
      var init := s[..|s| - 1];
      var front := CollapseRuns(init, c);
      CollapseRunsErase(init, c);
      if CollapseRuns(s, c) != front {
        var r := front + [s[|s| - 1]];
        assert r[..|r| - 1] == front;
      }
    }
  }

  /** Collapsing runs of `c` keeps the number of every other rune and does
      not add a `c`. */
  lemma {:induction false} CollapseRunsCount(s: string, c: char, d: char)
    ensures d != c ==> Count(CollapseRuns(s, c), d) == Count(s, d)
    ensures Count(CollapseRuns(s, c), d) <= Count(s, d)
    decreases |s|
  {
    if |s| > 0 {
      var init := s[..|s| - 1];
      var front := CollapseRuns(init, c);
      CollapseRunsCount(init, c, d);
      if CollapseRuns(s, c) != front {
        var r := front + [s[|s| - 1]];
        assert r[..|r| - 1] == front;
      }
    }
  }

  /** A string is left unchanged by collapsing runs of `c` exactly when it
      holds no two adjacent `c`s. */
  lemma {:induction false} CollapseRunsFixpoint(s: string, c: char)
    ensures CollapseRuns(s, c) == s <==> NoPair(s, c, c)
    decreases |s|
  {
    if NoPair(s, c, c) && |s| > 0 {
      var init := s[..|s| - 1];
      assert NoPair(init, c, c) by {
        forall i | 0 <= i < |init| - 1
          ensures !(init[i] == c && init[i + 1] == c)
        {
          assert init[i] == s[i] && init[i + 1] == s[i + 1];
        }
      }
      CollapseRunsFixpoint(init, c);
      assert !(|s| >= 2 && s[|s| - 2] == c && s[|s| - 1] == c);
      assert init + [s[|s| - 1]] == s;
    }
  }

  /** Collapsing runs twice collapses nothing more. */
  lemma CollapseRunsIdempotent(s: string, c: char)
    ensures CollapseRuns(CollapseRuns(s, c), c) == CollapseRuns(s, c)
  {
  }

  // ---------------------------------------------------------------------
  // Suffix trimming
  // ---------------------------------------------------------------------

  /** Trimming one trailing `c` from a string without two adjacent `c`s
      leaves no trailing `c`. */
  lemma TrimSuffixNoTrailing(s: string, c: char)
    requires NoPair(s, c, c)
    ensures !EndsWith(TrimSuffix(s, c), c)
  {
  }

  /** Trimming keeps every absent pair, every class, and adds no rune. */
  lemma TrimSuffixKeeps(s: string, c: char, a: char, b: char, p: char -> bool)
    ensures NoPair(s, a, b) ==> NoPair(TrimSuffix(s, c), a, b)
    ensures All(s, p) ==> All(TrimSuffix(s, c), p)
    ensures Count(TrimSuffix(s, c), a) <= Count(s, a)
  {
  }

  // ---------------------------------------------------------------------
  // Concatenation
  // ---------------------------------------------------------------------

  /** A concatenation lies inside a class exactly when both parts do. */
  lemma AllConcat(x: string, y: string, p: char -> bool)
    ensures All(x + y, p) <==> All(x, p) && All(y, p)
  {
    var xy := x + y;
    if All(xy, p) {
      forall i | 0 <= i < |x|
        ensures p(x[i])
      {
        assert xy[i] == x[i];
      }
      forall i | 0 <= i < |y|
        ensures p(y[i])
      {
        assert xy[|x| + i] == y[i];
      }
    }
    if All(x, p) && All(y, p) {
      forall i | 0 <= i < |xy|
        ensures p(xy[i])
      {
        if i < |x| {
          assert xy[i] == x[i];
        } else {
          assert xy[i] == y[i - |x|];
        }
      }
    }
  }

  /** A concatenation avoids the pair `a b` exactly when both parts do and
      the join does not form it. */
  lemma NoPairConcat(x: string, y: string, a: char, b: char)
    ensures NoPair(x + y, a, b) <==>
      NoPair(x, a, b) && NoPair(y, a, b) && !(EndsWith(x, a) && |y| > 0 && y[0] == b)
  {
    var xy := x + y;
    if NoPair(xy, a, b) {
      forall i | 0 <= i < |x| - 1
        ensures !(x[i] == a && x[i + 1] == b)
      {
        assert xy[i] == x[i] && xy[i + 1] == x[i + 1];
      }
      forall i | 0 <= i < |y| - 1
        ensures !(y[i] == a && y[i + 1] == b)
      {
        assert xy[|x| + i] == y[i] && xy[|x| + i + 1] == y[i + 1];
      }
      if EndsWith(x, a) && |y| > 0 {
        assert xy[|x| - 1] == x[|x| - 1] && xy[|x|] == y[0];
      }
    }
    if NoPair(x, a, b) && NoPair(y, a, b) && !(EndsWith(x, a) && |y| > 0 && y[0] == b) {
      forall i | 0 <= i < |xy| - 1
        ensures !(xy[i] == a && xy[i + 1] == b)
      {
        if i < |x| - 1 {
          assert xy[i] == x[i] && xy[i + 1] == x[i + 1];
        } else if i == |x| - 1 {
          assert xy[i] == x[|x| - 1] && xy[i + 1] == y[0];
        } else {
          assert xy[i] == y[i - |x|] && xy[i + 1] == y[i - |x| + 1];
        }
      }
    }
  }

  /** Replacement works rune by rune, so it distributes over concatenation. */
  lemma ReplaceOutsideConcat(x: string, y: string, allowed: char -> bool)
    ensures ReplaceOutside(x + y, allowed) == ReplaceOutside(x, allowed) + ReplaceOutside(y, allowed)
  {
  }

  /** A run of two `c`s collapses exactly as a single `c` does, wherever it
      stands: so a run of any length collapses to one `c`. */
  lemma {:induction false} CollapseRunsDropDouble(x: string, y: string, c: char)
    ensures CollapseRuns(x + [c, c] + y, c) == CollapseRuns(x + [c] + y, c)
    decreases |y|
  {
    var long := x + [c, c] + y;
    var short := x + [c] + y;
    DoubleShape(x, y, c);
    CollapseRunsLast(long, c);
    CollapseRunsLast(short, c);
    if |y| > 0 {
      CollapseRunsDropDouble(x, y[..|y| - 1], c);
    }
  }

  /** How `x cc y` and `x c y` end: one rune shorter, they are `x cc y'` and
      `x c y'` (or `x c` and `x`), and their last two runes agree. */
  lemma DoubleShape(x: string, y: string, c: char)
    ensures |y| == 0 ==> (x + [c, c] + y)[..|x| + 1] == x + [c] + y
    ensures |y| == 0 ==> (x + [c, c] + y)[|x|] == c && (x + [c, c] + y)[|x| + 1] == c
    ensures |y| > 0 ==> (x + [c, c] + y)[..|x| + |y| + 1] == x + [c, c] + y[..|y| - 1]
    ensures |y| > 0 ==> (x + [c] + y)[..|x| + |y|] == x + [c] + y[..|y| - 1]
    ensures |y| > 0 ==> (x + [c, c] + y)[|x| + |y| + 1] == (x + [c] + y)[|x| + |y|]
    ensures |y| > 0 ==> (x + [c, c] + y)[|x| + |y|] == (x + [c] + y)[|x| + |y| - 1]
  {
    if |y| > 0 {
      assert (x + [c, c] + y)[..|x| + |y| + 1] == x + [c, c] + y[..|y| - 1];
      assert (x + [c] + y)[..|x| + |y|] == x + [c] + y[..|y| - 1];
    } else {
      assert (x + [c, c] + y)[..|x| + 1] == x + [c] + y;
    }
  }

  /** One step of `CollapseRuns`: the last rune is kept unless it is a `c`
      following another `c`. */
  lemma CollapseRunsLast(s: string, c: char)
    requires |s| > 0
    ensures |s| >= 2 && s[|s| - 2] == c && s[|s| - 1] == c ==>
      CollapseRuns(s, c) == CollapseRuns(s[..|s| - 1], c)
    ensures !(|s| >= 2 && s[|s| - 2] == c && s[|s| - 1] == c) ==>
      CollapseRuns(s, c) == CollapseRuns(s[..|s| - 1], c) + [s[|s| - 1]]
  {
  }

  /** Collapsing runs of `c` works on each side of a seam separately, as
      long as the seam does not fall inside a run of `c`. */
  lemma {:induction false} CollapseSplit(a: string, b: string, c: char)
    requires !(EndsWith(a, c) && |b| > 0 && b[0] == c)
    ensures CollapseRuns(a + b, c) == CollapseRuns(a, c) + CollapseRuns(b, c)
    decreases |b|
  {
    if |b| == 0 {
      assert a + b == a;
    } else {
      var ab := a + b;
      var b' := b[..|b| - 1];
      var x := b[|b| - 1];
      assert ab[..|ab| - 1] == a + b';
      assert ab[|ab| - 1] == x;
      CollapseSplit(a, b', c);
      CollapseRunsLast(ab, c);
      CollapseRunsLast(b, c);
      var dropAB := |ab| >= 2 && ab[|ab| - 2] == c && x == c;
      var dropB := |b| >= 2 && b[|b| - 2] == c && x == c;
      if |b| >= 2 {
        assert ab[|ab| - 2] == b[|b| - 2];
        assert dropAB == dropB;
      } else {
        assert b' == [];
        assert !dropAB;
        assert !dropB;
      }
      if !dropB {
        assert CollapseRuns(a, c) + CollapseRuns(b', c) + [x]
          == CollapseRuns(a, c) + (CollapseRuns(b', c) + [x]);
      }
    }
  }

  /** A middle part that neither starts nor ends with `c` and that collapsing
      leaves alone separates the collapse of what stands on either side. */
  lemma CollapseAround(p: string, m: string, q: string, c: char)
    requires |m| > 0 && m[0] != c && !EndsWith(m, c)
    requires CollapseRuns(m, c) == m
    ensures CollapseRuns(p + m + q, c) == CollapseRuns(p, c) + m + CollapseRuns(q, c)
  {
    CollapseSplit(m, q, c);
    assert (m + q)[0] == m[0];
    CollapseSplit(p, m + q, c);
    Associate(p, m, q);
    Associate(CollapseRuns(p, c), m, CollapseRuns(q, c));
  }

  /** Concatenation regrouped, as a fact of its own so that proofs about
      `CollapseRuns` need not rediscover it. */
  lemma Associate(x: string, y: string, z: string)
    ensures x + y + z == x + (y + z)
  {
  }
}
