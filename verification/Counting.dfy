/** Counting set flags. */
module Counting {
  function Count(flags: seq<bool>): (n: nat)
    ensures n <= |flags|
  {
    if flags == [] then 0 else Count(flags[..|flags| - 1]) + if flags[|flags| - 1] then 1 else 0
  }

  /** Flag by flag, a is set when exactly one of b and c is. */
  ghost predicate Splits(a: seq<bool>, b: seq<bool>, c: seq<bool>) {
    |a| == |b| == |c| && forall i | 0 <= i < |a| :: a[i] == (b[i] || c[i]) && !(b[i] && c[i])
  }

  lemma {:induction false} CountSplit(a: seq<bool>, b: seq<bool>, c: seq<bool>)
    requires Splits(a, b, c)
    ensures Count(a) == Count(b) + Count(c)
  {
    if a == [] {
    } else {
      var n := |a| - 1;
      CountSplit(a[..n], b[..n], c[..n]);
    }
  }

  lemma {:induction false} CountNone(a: seq<bool>)
    ensures Count(a) == 0 <==> forall i | 0 <= i < |a| :: !a[i]
  {
    if a == [] {
    } else {
      var n := |a| - 1;
      CountNone(a[..n]);
      if Count(a) == 0 {
        assert forall i | 0 <= i < n :: !a[..n][i];
      } else if forall i | 0 <= i < |a| :: !a[i] {
        assert forall i | 0 <= i < n :: a[..n][i] == a[i];
      }
    }
  }

  /** The first `most` of the set flags. */
  function First(flags: seq<bool>, most: nat): (r: seq<bool>)
    ensures |r| == |flags|
  {
    seq(|flags|, i requires 0 <= i < |flags| => flags[i] && Count(flags[..i]) < most)
  }

  lemma FirstPrefix(flags: seq<bool>, most: nat, n: nat)
    requires n <= |flags|
    ensures First(flags[..n], most) == First(flags, most)[..n]
  {
    forall i | 0 <= i < n ensures First(flags[..n], most)[i] == First(flags, most)[i] {
      assert flags[..n][..i] == flags[..i];
    }
  }

  lemma {:induction false} CountFirst(flags: seq<bool>, most: nat)
    ensures Count(First(flags, most)) == if Count(flags) < most then Count(flags) else most
  {
    if flags == [] {
    } else {
      var n := |flags| - 1;
      CountFirst(flags[..n], most);
      FirstPrefix(flags, most, n);
    }
  }

  /** When there are no more than `most`, all of them are taken. */
  lemma FirstAll(flags: seq<bool>, most: nat)
    requires Count(flags) <= most
    ensures First(flags, most) == flags
  {
    forall i | 0 <= i < |flags| ensures First(flags, most)[i] == flags[i] {
      CountPrefix(flags, i + 1);
      assert flags[..i + 1][..i] == flags[..i];
    }
  }

  lemma {:induction false} CountPrefix(flags: seq<bool>, n: nat)
    requires n <= |flags|
    ensures Count(flags[..n]) <= Count(flags)
    decreases |flags| - n
  {
    if n < |flags| {
      CountPrefix(flags, n + 1);
      assert flags[..n + 1][..n] == flags[..n];
    } else {
      assert flags[..n] == flags;
    }
  }

  lemma CountStep(flags: seq<bool>, i: nat)
    requires i < |flags|
    ensures Count(flags[..i + 1]) == Count(flags[..i]) + if flags[i] then 1 else 0
  {
    assert flags[..i + 1][..i] == flags[..i];
  }

  lemma CountWhole(flags: seq<bool>)
    ensures flags[..0] == [] && flags[..|flags|] == flags
  {}

  /** Once enough flags have been seen, none of the later ones is taken. */
  lemma FirstDone(flags: seq<bool>, most: nat, n: nat)
    requires n <= |flags| && Count(flags[..n]) >= most
    ensures forall i | n <= i < |flags| :: !First(flags, most)[i]
  {
    forall i | n <= i < |flags| ensures !First(flags, most)[i] {
      CountPrefix(flags[..i], n);
      assert flags[..i][..n] == flags[..n];
    }
  }

  lemma FirstAt(flags: seq<bool>, most: nat, i: nat)
    requires i < |flags| && Count(flags[..i]) < most
    ensures First(flags, most)[i] == flags[i]
  {}

  /** The n lowest of the set flags, or all of them when there are fewer. */
  ghost predicate Lowest(part: seq<bool>, whole: seq<bool>, n: nat) {
    && |part| == |whole| && Count(part) == (if Count(whole) < n then Count(whole) else n)
    && (forall i | 0 <= i < |part| && part[i] :: whole[i])
    && forall h, i | 0 <= h < i < |part| && part[i] && whole[h] :: part[h]
  }

  lemma FirstIsLowest(flags: seq<bool>, most: nat)
    ensures Lowest(First(flags, most), flags, most)
  {
    CountFirst(flags, most);
    forall h, i | 0 <= h < i < |flags| && First(flags, most)[i] && flags[h] ensures First(flags, most)[h] {
      CountPrefix(flags[..i], h);
      assert flags[..i][..h] == flags[..h];
    }
  }

  // ---------- Cyclic search ----------

  /** x is passed on the way from start up to i, around the end where i is below start. */
  predicate Passed(start: nat, i: nat, x: nat) {
    if start <= i then start <= x < i else x >= start || x < i
  }

  /** i is the first open place from start on. */
  ghost predicate FirstFrom(open: seq<bool>, start: nat, i: nat) {
    i < |open| && open[i] && forall x | 0 <= x < |open| && Passed(start, i, x) :: !open[x]
  }

  /** The places that are open and not among the picks. */
  function Without(open: seq<bool>, picks: seq<nat>): (left: seq<bool>)
    ensures |left| == |open| && forall i | 0 <= i < |open| :: left[i] == (open[i] && i !in picks)
  {
    seq(|open|, i requires 0 <= i < |open| => open[i] && i !in picks)
  }

  /** Each pick is the first open place from its random number on that has not been picked before. */
  ghost predicate Drawn(picks: seq<nat>, open: seq<bool>, random: seq<nat>) {
    |picks| <= |random| && (|picks| > 0 ==> |open| > 0)
    && forall j | 0 <= j < |picks| :: FirstFrom(Without(open, picks[..j]), random[j] % |open|, picks[j])
  }

  lemma DrawnStep(picks: seq<nat>, open: seq<bool>, random: seq<nat>, i: nat)
    requires Drawn(picks, open, random) && |picks| < |random| && |open| > 0
    requires FirstFrom(Without(open, picks), random[|picks|] % |open|, i)
    ensures Drawn(picks + [i], open, random)
  {
    var more := picks + [i];
    forall j | 0 <= j < |more| ensures FirstFrom(Without(open, more[..j]), random[j] % |open|, more[j]) {
      assert more[..j] == picks[..j];
      assert picks[..|picks|] == picks;
    }
  }

  lemma {:induction false} CountOne(n: nat, c: nat)
    ensures Count(seq(n, d requires 0 <= d => d == c)) == if c < n then 1 else 0
  {
    if n == 0 {
    } else {
      CountOne(n - 1, c);
      assert seq(n, d requires 0 <= d => d == c)[..n - 1] == seq(n - 1, d requires 0 <= d => d == c);
    }
  }

  lemma NothingYet(flags: seq<bool>)
    ensures Count(flags[..0]) == 0
  {}

  lemma CountAtMost(flags: seq<bool>, n: nat)
    requires n <= |flags|
    ensures Count(flags[..n]) <= n
  {}

  lemma {:induction false} CountBelow(n: nat, m: nat)
    requires m <= n
    ensures Count(seq(n, i requires 0 <= i => i < m)) == m
  {
    if n == 0 {
    } else {
      if m < n {
        CountBelow(n - 1, m);
        assert seq(n, i requires 0 <= i => i < m)[..n - 1] == seq(n - 1, i requires 0 <= i => i < m);
      } else {
        CountBelow(n - 1, n - 1);
        assert seq(n, i requires 0 <= i => i < m)[..n - 1] == seq(n - 1, i requires 0 <= i => i < n - 1);
      }
    }
  }

  lemma CountSet(flags: seq<bool>, i: nat)
    requires i < |flags| && !flags[i]
    ensures Count(flags[i := true]) == Count(flags) + 1
  {
    var one := seq(|flags|, d requires 0 <= d => d == i);
    CountOne(|flags|, i);
    CountSplit(flags[i := true], flags, one);
  }

  lemma CountContained(a: seq<bool>, b: seq<bool>)
    requires |a| == |b| && forall i | 0 <= i < |a| && a[i] :: b[i]
    ensures Count(a) <= Count(b)
  {
    CountSplit(b, a, seq(|b|, i requires 0 <= i < |b| => b[i] && !a[i]));
  }

  lemma {:induction false} CountUpdate(flags: seq<bool>, i: nat, v: bool)
    requires i < |flags|
    ensures Count(flags[i := v]) == Count(flags) - (if flags[i] then 1 else 0) + if v then 1 else 0
  {
    var n := |flags| - 1;
    if i == n {
      assert flags[i := v][..n] == flags[..n];
    } else {
      CountUpdate(flags[..n], i, v);
      assert flags[i := v][..n] == flags[..n][i := v];
    }
  }

  lemma CountSwap(flags: seq<bool>, i: nat, j: nat)
    requires i < j < |flags|
    ensures Count(flags[i := flags[j]][j := flags[i]]) == Count(flags)
  {
    CountUpdate(flags, i, flags[j]);
    CountUpdate(flags[i := flags[j]], j, flags[i]);
  }

  lemma {:induction false} CountFull(flags: seq<bool>)
    requires forall i | 0 <= i < |flags| :: flags[i]
    ensures Count(flags) == |flags|
  {
    if flags == [] {
    } else {
      CountFull(flags[..|flags| - 1]);
    }
  }

  /** Flags that are not set may be cut off. */
  lemma {:induction false} CountTail(flags: seq<bool>, n: nat)
    requires n <= |flags| && forall i | n <= i < |flags| :: !flags[i]
    ensures Count(flags) == Count(flags[..n])
  {
    if n == |flags| {
      assert flags[..n] == flags;
    } else {
      CountTail(flags[..|flags| - 1], n);
      assert flags[..|flags| - 1][..n] == flags[..n];
    }
  }
}
