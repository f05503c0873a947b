/** Taking turns, apart from any kernel state: a holder for every instant, and the instants at
    which it is preempted. TimeShare reads these sequences off a stretch of timer ticks. */
module Turns {
  import opened Arith

  /** How many of the first `m` instants preempt. */
  ghost function Count(fs: seq<bool>, m: nat): nat
    requires m <= |fs|
    decreases m
  {
    if m == 0 then 0 else Count(fs, m - 1) + if fs[m - 1] then 1 else 0
  }

  lemma {:induction false} CountMono(fs: seq<bool>, a: nat, b: nat)
    requires a <= b <= |fs|
    ensures Count(fs, a) <= Count(fs, b)
    decreases b
  {
    if a < b {
      CountMono(fs, a, b - 1);
    }
  }

  /** Between two counts lies the preemption that made each count. */
  lemma {:induction false} FindCount(fs: seq<bool>, a: nat, b: nat, c: nat) returns (t: nat)
    requires a <= b <= |fs| && Count(fs, a) <= c < Count(fs, b)
    ensures a <= t < b && fs[t] && Count(fs, t) == c
    decreases b
  {
    if Count(fs, b - 1) <= c {
      t := b - 1;
    } else {
      t := FindCount(fs, a, b - 1, c);
    }
  }

  // -------------------------------------------------------------------- descent

  ghost predicate DescendsAt(cs: seq<int>, fs: seq<bool>, m: nat)
    requires m + 1 < |cs| == |fs|
  {
    cs[m + 1] == if fs[m] && cs[m] > 0 then cs[m] - 1 else cs[m]
  }

  /** `cs` goes down by one at each preemption until it is zero. */
  ghost predicate Descends(cs: seq<int>, fs: seq<bool>) {
    |cs| == |fs| && forall m :: 0 <= m < |cs| - 1 ==> DescendsAt(cs, fs, m)
  }

  lemma {:induction false} DescendsToZero(cs: seq<int>, fs: seq<bool>, m: nat)
    requires Descends(cs, fs) && m < |cs| && cs[0] >= 0
    ensures cs[m] == if Count(fs, m) <= cs[0] then cs[0] - Count(fs, m) else 0
    decreases m
  {
    if m != 0 {
      DescendsToZero(cs, fs, m - 1);
      assert DescendsAt(cs, fs, m - 1);
    }
  }

  // ------------------------------------------------------------------- rotation

  /** A sequence after `c` rotations. */
  ghost function Rotated(s: seq<nat>, c: nat): (t: seq<nat>)
    requires s != []
    ensures |t| == |s|
  {
    if c == 0 then s else var t := Rotated(s, c - 1); t[1..] + [t[0]]
  }

  lemma RoundLater(x: nat, n: nat)
    requires n > 0
    ensures (x + n) % n == x % n
  {
    assert x == n * (x / n) + x % n && n * (x / n + 1) == n * (x / n) + n;
    DivModUnique(x + n, n, x / n + 1, x % n);
  }

  lemma {:induction false} RotatedPlace(s: seq<nat>, c: nat, j: nat)
    requires s != [] && j < |s|
    ensures Rotated(s, c)[j] == s[(c + j) % |s|]
    decreases c
  {
    if c == 0 {
      DivModUnique(j, |s|, 0, j);
    } else if j == |s| - 1 {
      RotatedPlace(s, c - 1, 0);
      RoundLater(c - 1, |s|);
    } else {
      RotatedPlace(s, c - 1, j + 1);
    }
  }

  ghost predicate RotatesAt(rs: seq<seq<nat>>, fs: seq<bool>, m: nat)
    requires m + 1 < |rs| == |fs|
  {
    rs[m] != [] && rs[m + 1] == if fs[m] then rs[m][1..] + [rs[m][0]] else rs[m]
  }

  /** `rs` changes at the preemptions only, and there by a rotation. */
  ghost predicate Rotates(rs: seq<seq<nat>>, fs: seq<bool>) {
    |rs| == |fs| && forall m :: 0 <= m < |rs| - 1 ==> RotatesAt(rs, fs, m)
  }

  /** `c` preemptions rotate `c` times. */
  lemma {:induction false} RoundsRotate(rs: seq<seq<nat>>, fs: seq<bool>, m: nat)
    requires Rotates(rs, fs) && m < |rs| && rs[0] != []
    ensures rs[m] == Rotated(rs[0], Count(fs, m))
    decreases m
  {
    if m != 0 {
      RoundsRotate(rs, fs, m - 1);
      assert RotatesAt(rs, fs, m - 1);
    }
  }

  // ---------------------------------------------------------------------- turns

  ghost predicate Distinct(s: seq<nat>) {
    forall i, j :: 0 <= i < j < |s| ==> s[i] != s[j]
  }

  /** Instant `m` belongs to the member of `s` that as many turns as there were preemptions
      lead to; the turns start from the last member. */
  ghost predicate TurnAt(hs: seq<nat>, fs: seq<bool>, s: seq<nat>, m: nat)
    requires s != [] && m < |hs| == |fs|
  {
    hs[m] == s[(Count(fs, m) + |s| - 1) % |s|]
  }

  /** The members of `s` hold in turn, a preemption ending each turn. */
  ghost predicate InTurn(hs: seq<nat>, fs: seq<bool>, s: seq<nat>) {
    && s != []
    && Distinct(s)
    && |hs| == |fs|
    && (forall m :: 0 <= m < |hs| ==> TurnAt(hs, fs, s, m))
  }

  lemma RotationTakesTurns(rs: seq<seq<nat>>, fs: seq<bool>, hs: seq<nat>)
    requires Rotates(rs, fs) && |rs| == |hs| >= 1 && Distinct(rs[0])
    requires forall m :: 0 <= m < |rs| ==> rs[m] != [] && hs[m] == rs[m][|rs[m]| - 1]
    ensures InTurn(hs, fs, rs[0])
  {
    forall m | 0 <= m < |hs| ensures TurnAt(hs, fs, rs[0], m) {
      RoundsRotate(rs, fs, m);
      RotatedPlace(rs[0], Count(fs, m), |rs[0]| - 1);
    }
  }

  /** The preemption after `c` others gives the turn to place `c` modulo the number of members. */
  lemma StrictRotation(hs: seq<nat>, fs: seq<bool>, s: seq<nat>, t: nat)
    requires InTurn(hs, fs, s) && t + 1 < |hs| && fs[t]
    ensures hs[t + 1] == s[Count(fs, t) % |s|]
  {
    assert TurnAt(hs, fs, s, t + 1);
    RoundLater(Count(fs, t), |s|);
  }

  /** The preemption at `t` gives the turn to `r`. */
  ghost predicate Dispatches(hs: seq<nat>, fs: seq<bool>, t: nat, r: nat)
    requires t + 1 < |hs| == |fs|
  {
    fs[t] && hs[t + 1] == r
  }

  ghost predicate DispatchedOnce(hs: seq<nat>, fs: seq<bool>, a: nat, b: nat, r: nat)
    requires b < |hs| == |fs|
  {
    && (exists t :: a <= t < b && Dispatches(hs, fs, t, r))
    && (forall t, u :: a <= t < u < b && Dispatches(hs, fs, t, r) ==> !Dispatches(hs, fs, u, r))
  }

  /** In any stretch with as many preemptions as members, each member gets one turn. */
  lemma OncePerRound(hs: seq<nat>, fs: seq<bool>, s: seq<nat>, a: nat, b: nat, p: nat)
    requires InTurn(hs, fs, s) && a <= b < |hs| && p < |s| && Count(fs, b) == Count(fs, a) + |s|
    ensures DispatchedOnce(hs, fs, a, b, s[p])
  {
    var c := HitResidue(Count(fs, a), |s|, p);
    var t0 := FindCount(fs, a, b, c);
    StrictRotation(hs, fs, s, t0);
    assert Dispatches(hs, fs, t0, s[p]);
    forall t, u | a <= t < u < b && Dispatches(hs, fs, t, s[p]) ensures !Dispatches(hs, fs, u, s[p]) {
      if fs[u] {
        TurnsDiffer(hs, fs, s, a, b, t, u);
      }
    }
  }

  lemma TurnsDiffer(hs: seq<nat>, fs: seq<bool>, s: seq<nat>, a: nat, b: nat, t: nat, u: nat)
    requires InTurn(hs, fs, s) && a <= t < u < b < |hs| && fs[t] && fs[u] && Count(fs, b) == Count(fs, a) + |s|
    ensures hs[t + 1] != hs[u + 1]
  {
    StrictRotation(hs, fs, s, t);
    StrictRotation(hs, fs, s, u);
    CountMono(fs, a, t);
    CountMono(fs, t + 1, u);
    CountMono(fs, u + 1, b);
    ResiduesDiffer(Count(fs, t), Count(fs, u), |s|);
  }

  // --------------------------------------------------------------------- slices

  ghost predicate CountsAt(ls: seq<int>, fs: seq<bool>, z: nat, m: nat)
    requires m + 1 < |ls| == |fs|
  {
    ls[m] >= 1 ==> (fs[m] <==> ls[m] == 1) && ls[m + 1] == if ls[m] == 1 then z else ls[m] - 1
  }

  /** What is left of a slice of `z` goes down by one at each instant; the last one preempts. */
  ghost predicate Counts(ls: seq<int>, fs: seq<bool>, z: nat) {
    |ls| == |fs| && forall m :: 0 <= m < |ls| - 1 ==> CountsAt(ls, fs, z, m)
  }

  lemma NextInSlice(m: nat, c: int, z: nat)
    requires z >= 1 && c == z - m % z
    ensures 1 <= c <= z
    ensures (m + 1) / z == if c == 1 then m / z + 1 else m / z
    ensures z - (m + 1) % z == if c == 1 then z else c - 1
  {
    NextResidue(m, z);
  }

  /** Every `z`-th instant preempts, and no other. */
  lemma {:induction false} SlicesAreEven(ls: seq<int>, fs: seq<bool>, z: nat, m: nat)
    requires Counts(ls, fs, z) && m < |ls| && ls[0] == z >= 1
    ensures Count(fs, m) == m / z && ls[m] == z - m % z
    decreases m
  {
    if m == 0 {
      DivModUnique(0, z, 0, 0);
    } else {
      SlicesAreEven(ls, fs, z, m - 1);
      NextInSlice(m - 1, ls[m - 1], z);
      assert CountsAt(ls, fs, z, m - 1);
    }
  }

  ghost predicate HolderAt(hs: seq<nat>, s: seq<nat>, z: nat, m: nat)
    requires s != [] && m < |hs| && z >= 1
  {
    hs[m] == s[(m / z + |s| - 1) % |s|]
  }

  /** The members of `s` hold in turn, for `z` instants each. */
  ghost predicate InSlices(hs: seq<nat>, s: seq<nat>, z: nat) {
    && s != []
    && Distinct(s)
    && z >= 1
    && (forall m :: 0 <= m < |hs| ==> HolderAt(hs, s, z, m))
  }

  lemma TurnsInSlices(hs: seq<nat>, fs: seq<bool>, ls: seq<int>, s: seq<nat>, z: nat)
    requires InTurn(hs, fs, s) && Counts(ls, fs, z) && ls != [] && ls[0] == z >= 1
    ensures InSlices(hs, s, z)
  {
    forall m | 0 <= m < |hs| ensures HolderAt(hs, s, z, m) {
      SlicesAreEven(ls, fs, z, m);
      assert TurnAt(hs, fs, s, m);
    }
  }

  // ---------------------------------------------------------------------- shares

  /** How many of the instants `a` to `b - 1` belong to `r`. */
  ghost function Held(hs: seq<nat>, r: nat, a: nat, b: nat): nat
    requires a <= b <= |hs|
    decreases b
  {
    if a == b then 0 else Held(hs, r, a, b - 1) + if hs[b - 1] == r then 1 else 0
  }

  lemma {:induction false} HeldSplit(hs: seq<nat>, r: nat, a: nat, b: nat, c: nat)
    requires a <= b <= c <= |hs|
    ensures Held(hs, r, a, c) == Held(hs, r, a, b) + Held(hs, r, b, c)
    decreases c
  {
    if b < c {
      HeldSplit(hs, r, a, b, c - 1);
    }
  }

  /** Within one slice the holder stays. */
  lemma {:induction false} HeldInSlice(hs: seq<nat>, s: seq<nat>, z: nat, r: nat, i: nat, m: nat)
    requires InSlices(hs, s, z) && m <= z && i * z + m <= |hs|
    ensures Held(hs, r, i * z, i * z + m) == if s[(i + |s| - 1) % |s|] == r then m else 0
    decreases m
  {
    if m != 0 {
      HeldInSlice(hs, s, z, r, i, m - 1);
      DivModUnique(i * z + m - 1, z, i, m - 1);
      assert HolderAt(hs, s, z, i * z + m - 1);
    }
  }

  /** The first `i` slices of a round hold the slice of place `p` or not. */
  lemma {:induction false} HeldInSlices(hs: seq<nat>, s: seq<nat>, z: nat, p: nat, i: nat)
    requires InSlices(hs, s, z) && p < |s| && i <= |s| && i * z <= |hs|
    ensures Held(hs, s[p], 0, i * z) == if (p + 1) % |s| < i then z else 0
    decreases i
  {
    if i != 0 {
      MulStep(i - 1, z);
      HeldInSlices(hs, s, z, p, i - 1);
      HeldSplit(hs, s[p], 0, (i - 1) * z, i * z);
      HeldInSlice(hs, s, z, s[p], i - 1, z);
      PlaceOfSlice(p, i - 1, |s|);
    }
  }

  /** Slice `i` of a round belongs to the member one place before it. */
  lemma PlaceOfSlice(p: nat, i: nat, n: nat)
    requires p < n && i < n
    ensures (i + n - 1) % n == p <==> (p + 1) % n == i
  {
    NextResidue(p, n);
    if i == 0 {
      DivModUnique(n - 1, n, 0, n - 1);
    } else {
      DivModUnique(i + n - 1, n, 1, i - 1);
    }
    DivModUnique(p, n, 0, p);
  }

  /** A round later the same member holds. */
  lemma HolderRecurs(hs: seq<nat>, s: seq<nat>, z: nat, m: nat)
    requires InSlices(hs, s, z) && m + |s| * z < |hs|
    ensures hs[m + |s| * z] == hs[m]
  {
    assert HolderAt(hs, s, z, m) && HolderAt(hs, s, z, m + |s| * z);
    SlicesLater(m, z, |s|);
    RoundLater(m / z + |s| - 1, |s|);
  }

  lemma SlicesLater(m: nat, z: nat, n: nat)
    requires z >= 1
    ensures (m + n * z) / z == m / z + n
  {
    var q, a := m / z, m % z;
    assert m == z * q + a && z * (q + n) == z * q + n * z;
    DivModUnique(m + n * z, z, q + n, a);
  }

  /** In every window of one round each member holds for exactly one slice. */
  lemma {:induction false} EqualShares(hs: seq<nat>, s: seq<nat>, z: nat, p: nat, a: nat)
    requires InSlices(hs, s, z) && p < |s| && a + |s| * z <= |hs|
    ensures Held(hs, s[p], a, a + |s| * z) == z
    decreases a
  {
    var w := |s| * z;
    if a == 0 {
      HeldInSlices(hs, s, z, p, |s|);
      assert (p + 1) % |s| < |s|;
    } else {
      EqualShares(hs, s, z, p, a - 1);
      HeldSplit(hs, s[p], a - 1, a, a + w - 1);
      HolderRecurs(hs, s, z, a - 1);
    }
  }
}
