/** Word-at-a-time string routines (user/lib/string.c): each agrees with its byte-by-byte meaning,
    for every alignment. Memory is a sequence of bytes whose length is a multiple of the word
    size, and an address is an index into it; words are little-endian. */
module StringLib {
  import opened Wrappers

  const SS: nat := 8
  const ONES: bv64 := 0x0101_0101_0101_0101
  const HIGHS: bv64 := 0x8080_8080_8080_8080

  function HasZero(x: bv64): bv64 { (x - ONES) & !x & HIGHS }

  // -------------------------------------------------------------- bytes of words

  predicate AnyByte(x: bv64, c: bv64) {
    || x & 0xFF == c || (x >> 8) & 0xFF == c || (x >> 16) & 0xFF == c || (x >> 24) & 0xFF == c
    || (x >> 32) & 0xFF == c || (x >> 40) & 0xFF == c || (x >> 48) & 0xFF == c || (x >> 56) & 0xFF == c
  }

  predicate AllBytes(x: bv64, c: bv64) {
    && x & 0xFF == c && (x >> 8) & 0xFF == c && (x >> 16) & 0xFF == c && (x >> 24) & 0xFF == c
    && (x >> 32) & 0xFF == c && (x >> 40) & 0xFF == c && (x >> 48) & 0xFF == c && (x >> 56) & 0xFF == c
  }

  /** The trick: the expression is non-zero exactly when some byte is zero. */
  lemma HasZeroIff(x: bv64)
    ensures HasZero(x) != 0 <==> AnyByte(x, 0)
  {
  }

  /** Multiplying by ONES puts a byte in every place. */
  lemma Spread(c: bv64)
    requires c <= 0xFF
    ensures AllBytes(ONES * c, c)
  {
  }

  lemma XorBytes(x: bv64, y: bv64, c: bv64)
    requires AllBytes(y, c)
    ensures AnyByte(x ^ y, 0) <==> AnyByte(x, c)
  {
  }

  /** Flipping every byte by `c` turns a search for `c` into a search for zero. */
  lemma HasIff(x: bv64, y: bv64, c: bv64)
    requires AllBytes(y, c)
    ensures HasZero(x ^ y) != 0 <==> AnyByte(x, c)
  {
    HasZeroIff(x ^ y);
    XorBytes(x, y, c);
  }

  function Join(b0: bv8, b1: bv8, b2: bv8, b3: bv8, b4: bv8, b5: bv8, b6: bv8, b7: bv8): bv64 {
    (b0 as bv64) | ((b1 as bv64) << 8) | ((b2 as bv64) << 16) | ((b3 as bv64) << 24)
    | ((b4 as bv64) << 32) | ((b5 as bv64) << 40) | ((b6 as bv64) << 48) | ((b7 as bv64) << 56)
  }

  /** The bytes of `x`, lowest first. */
  predicate BytesAre(x: bv64, b0: bv8, b1: bv8, b2: bv8, b3: bv8, b4: bv8, b5: bv8, b6: bv8, b7: bv8) {
    && x & 0xFF == b0 as bv64 && (x >> 8) & 0xFF == b1 as bv64 && (x >> 16) & 0xFF == b2 as bv64 && (x >> 24) & 0xFF == b3 as bv64
    && (x >> 32) & 0xFF == b4 as bv64 && (x >> 40) & 0xFF == b5 as bv64 && (x >> 48) & 0xFF == b6 as bv64 && (x >> 56) & 0xFF == b7 as bv64
  }

  lemma JoinBytes(b0: bv8, b1: bv8, b2: bv8, b3: bv8, b4: bv8, b5: bv8, b6: bv8, b7: bv8)
    ensures BytesAre(Join(b0, b1, b2, b3, b4, b5, b6, b7), b0, b1, b2, b3, b4, b5, b6, b7)
  {
  }

  lemma AnyOf(x: bv64, b0: bv8, b1: bv8, b2: bv8, b3: bv8, b4: bv8, b5: bv8, b6: bv8, b7: bv8, c: bv8)
    requires BytesAre(x, b0, b1, b2, b3, b4, b5, b6, b7)
    ensures AnyByte(x, c as bv64) <==> b0 == c || b1 == c || b2 == c || b3 == c || b4 == c || b5 == c || b6 == c || b7 == c
  {
  }

  // --------------------------------------------------------------------- memory

  function Load(m: seq<bv8>, i: nat): bv64
    requires i + SS <= |m|
  {
    Join(m[i], m[i + 1], m[i + 2], m[i + 3], m[i + 4], m[i + 5], m[i + 6], m[i + 7])
  }

  ghost predicate InWord(m: seq<bv8>, i: nat, c: bv8)
    requires i + SS <= |m|
  {
    exists k :: i <= k < i + SS && m[k] == c
  }

  lemma WordHas(m: seq<bv8>, i: nat, c: bv8)
    requires i + SS <= |m|
    ensures AnyByte(Load(m, i), c as bv64) <==> InWord(m, i, c)
  {
    JoinBytes(m[i], m[i + 1], m[i + 2], m[i + 3], m[i + 4], m[i + 5], m[i + 6], m[i + 7]);
    AnyOf(Load(m, i), m[i], m[i + 1], m[i + 2], m[i + 3], m[i + 4], m[i + 5], m[i + 6], m[i + 7], c);
  }

  lemma TestBytes(x: bv64, y: bv64, c: bv8)
    requires AllBytes(y, c as bv64)
    ensures HasZero(x ^ y) != 0 <==> AnyByte(x, c as bv64)
  {
    HasIff(x, y, c as bv64);
  }

  /** HASZERO of the word `x` at `i`, after flipping by the word `y` of bytes `c`. */
  lemma TestWord(m: seq<bv8>, i: nat, x: bv64, y: bv64, c: bv8)
    requires i + SS <= |m| && x == Load(m, i) && AllBytes(y, c as bv64)
    ensures HasZero(x ^ y) != 0 <==> InWord(m, i, c)
  {
    TestBytes(x, y, c);
    WordHas(m, i, c);
  }

  lemma TestWordZero(m: seq<bv8>, i: nat)
    requires i + SS <= |m|
    ensures HasZero(Load(m, i)) != 0 <==> InWord(m, i, 0)
  {
    HasZeroIff(Load(m, i));
    WordHas(m, i, 0);
  }

  /** The first place from `s` on, before `end`, that holds `c`; or `end`. */
  ghost function First(m: seq<bv8>, s: nat, end: nat, c: bv8): (k: nat)
    requires s <= end <= |m|
    ensures s <= k <= end && (k < end ==> m[k] == c)
    ensures forall j :: s <= j < k ==> m[j] != c
    decreases end - s
  {
    if s == end || m[s] == c then s else First(m, s + 1, end, c)
  }

  // ------------------------------------------------------------------- routines

  /** `strlen`: memory has a zero from `a` on. */
  method StrLen(m: seq<bv8>, a: nat) returns (n: nat)
    requires |m| % SS == 0 && a <= |m| && First(m, a, |m|, 0) < |m|
    ensures n == First(m, a, |m|, 0) - a
  {
    ghost var z := First(m, a, |m|, 0);
    var s := a;
    while s % SS != 0
      invariant a <= s <= z
      decreases z - s
    {
      if m[s] == 0 {
        return s - a;
      }
      s := s + 1;
    }
    s := FindWord(m, s, z);
    while m[s] != 0
      invariant a <= s <= z
      decreases z - s
    {
      s := s + 1;
    }
    return s - a;
  }

  /** The loop over words, up to the one that holds the zero at `z`. */
  method FindWord(m: seq<bv8>, s: nat, ghost z: nat) returns (w: nat)
    requires |m| % SS == 0 && s % SS == 0 && s <= z < |m| && m[z] == 0
    requires forall j :: s <= j < z ==> m[j] != 0
    ensures s <= w <= z
  {
    w := s;
    TestWordZero(m, w);
    while HasZero(Load(m, w)) == 0
      invariant s <= w <= z && w % SS == 0 && w + SS <= |m|
      invariant HasZero(Load(m, w)) != 0 <==> InWord(m, w, 0)
      decreases z - w
    {
      assert !(w <= z < w + SS);
      w := w + SS;
      TestWordZero(m, w);
    }
  }

  /** `memchr`. */
  method MemChr(m: seq<bv8>, src: nat, c: bv8, n0: nat) returns (r: Option<nat>)
    requires src + n0 <= |m|
    ensures var k := First(m, src, src + n0, c); r == if k < src + n0 then Some(k) else None
  {
    ghost var z := First(m, src, src + n0, c);
    var s, n := src, n0;
    while s % SS != 0 && n > 0 && m[s] != c
      invariant src <= s <= z && s + n == src + n0
      decreases n
    {
      s, n := s + 1, n - 1;
    }
    if n > 0 && m[s] != c {
      s, n := FindByte(m, s, n, c, z);
    }
    while n > 0 && m[s] != c
      invariant src <= s <= z && s + n == src + n0
      decreases n
    {
      s, n := s + 1, n - 1;
    }
    return if n > 0 then Some(s) else None;
  }

  method HasByte(m: seq<bv8>, s: nat, k: bv64, ghost c: bv8) returns (hit: bool)
    requires s + SS <= |m| && AllBytes(k, c as bv64)
    ensures hit <==> InWord(m, s, c)
  {
    var x := Load(m, s);
    TestWord(m, s, x, k, c);
    hit := HasZero(x ^ k) != 0;
  }

  /** The loop over words of `memchr`, short of the place `z` looked for. */
  method FindByte(m: seq<bv8>, s0: nat, n0: nat, c: bv8, ghost z: nat) returns (s: nat, n: nat)
    requires s0 + n0 <= |m| && s0 <= z <= s0 + n0 && (z < s0 + n0 ==> m[z] == c) && forall j :: s0 <= j < z ==> m[j] != c
    ensures s0 <= s <= z && s + n == s0 + n0
  {
    var k := ONES * (c as bv64);
    Spread(c as bv64);
    s, n := s0, n0;
    while n >= SS
      invariant s0 <= s <= z && s + n == s0 + n0
    {
      var hit := HasByte(m, s, k, c);
      if hit {
        break;
      }
      assert !(s <= z < s + SS && z < s0 + n0);
      s, n := s + SS, n - SS;
    }
  }

  /** `strnlen`. */
  method StrnLen(m: seq<bv8>, s: nat, n: nat) returns (r: nat)
    requires s + n <= |m|
    ensures r == First(m, s, s + n, 0) - s
  {
    var p := MemChr(m, s, 0, n);
    r := match p case Some(k) => k - s case None => n;
  }

  // -------------------------------------------------------------------- strncpy

  /** A copy of at most `n` bytes of the string at `s` takes `t` of them: those before its zero. */
  ghost predicate Takes(m: seq<bv8>, s: nat, n: nat, t: nat) {
    && t <= n && s + t <= |m| && (forall k :: s <= k < s + t ==> m[k] != 0)
    && (t < n ==> s + t < |m| && m[s + t] == 0)
  }

  /** What is asked of the arguments: the target fits, the source is a string that ends in memory
      or is long enough, and the bytes read and the target do not overlap. */
  ghost predicate Arguments(m: seq<bv8>, d: nat, s: nat, n: nat, t: nat) {
    && |m| % SS == 0 && d + n <= |m| && Takes(m, s, n, t)
    && (d + n <= s || s + t < d || (s + t == d && t == n))
  }

  /** The first `i` bytes were copied, and nothing else changed. */
  ghost predicate Copied(m0: seq<bv8>, m: seq<bv8>, d: nat, s: nat, i: nat) {
    && |m| == |m0| && s + i <= |m0|
    && (forall k {:trigger m[k]} :: 0 <= k < |m| ==> m[k] == if d <= k < d + i then m0[s + (k - d)] else m0[k])
  }

  /** All `t` bytes are in place, and nothing outside the target of `n` changed. */
  ghost predicate Finished(m0: seq<bv8>, m: seq<bv8>, d: nat, s: nat, n: nat, t: nat) {
    && |m| == |m0| && s + t <= |m0|
    && (forall k {:trigger m[k]} :: 0 <= k < |m| ==> (d <= k < d + t ==> m[k] == m0[s + (k - d)]) && (!(d <= k < d + n) ==> m[k] == m0[k]))
  }

  /** A loop that stores a byte and then tests it; with `aligning`, up to a word boundary. */
  method CopyBytes(a: array<bv8>, d: nat, s: nat, n: nat, i0: nat, aligning: bool, ghost m: seq<bv8>, ghost t: nat)
    returns (i: nat, done: bool)
    requires Arguments(m, d, s, n, t) && Copied(m, a[..], d, s, i0) && i0 <= t
    modifies a
    ensures if done then i == t && Finished(m, a[..], d, s, n, t) else i <= t && Copied(m, a[..], d, s, i)
    ensures !done ==> aligning && (s + i) % SS == 0
  {
    i := i0;
    while i < n && !(aligning && (s + i) % SS == 0)
      invariant i <= t && Copied(m, a[..], d, s, i)
    {
      assert s + i < |m| && a[..][s + i] == m[s + i];
      var b := a[s + i];
      a[d + i] := b;
      if b == 0 {
        return i, true;
      }
      i := i + 1;
    }
    done := i == n;
  }

  /** A word of the source without a zero is all to be taken, and still what it was. */
  lemma WordIsTaken(m0: seq<bv8>, m: seq<bv8>, d: nat, s: nat, n: nat, i: nat, t: nat)
    requires Arguments(m0, d, s, n, t) && Copied(m0, m, d, s, i) && i <= t && i + SS <= n
    requires s + i + SS <= |m| && !InWord(m, s + i, 0)
    ensures i + SS <= t && (d + SS <= s || s + SS <= d)
    ensures forall k :: s + i <= k < s + i + SS ==> m[k] == m0[k]
  {
    assert t < n ==> m[s + t] == m0[s + t];
  }

  /** A word copied, unless it holds a zero. */
  method CopyWord(a: array<bv8>, d: nat, s: nat, n: nat, i: nat, ghost m: seq<bv8>, ghost t: nat) returns (zero: bool)
    requires Arguments(m, d, s, n, t) && Copied(m, a[..], d, s, i) && i <= t && (s + i) % SS == 0 && i + SS <= n
    modifies a
    ensures var j := if zero then i else i + SS; j <= t && Copied(m, a[..], d, s, j)
  {
    zero := WordHasNul(a[..], s + i);
    if !zero {
      ghost var b := a[..];
      WordIsTaken(m, b, d, s, n, i, t);
      StoreWord(a, d + i, s + i);
      forall k | 0 <= k < a.Length ensures a[k] == if d <= k < d + i + SS then m[s + (k - d)] else m[k] {
        assert b[k] == if d <= k < d + i then m[s + (k - d)] else m[k];
      }
    }
  }

  method WordHasNul(m: seq<bv8>, s: nat) returns (zero: bool)
    requires s + SS <= |m|
    ensures zero <==> InWord(m, s, 0)
  {
    TestWordZero(m, s);
    zero := HasZero(Load(m, s)) != 0;
  }

  /** A word copied from `s` to `d`, which do not overlap. */
  method StoreWord(a: array<bv8>, d: nat, s: nat)
    requires d + SS <= a.Length && s + SS <= a.Length && (d + SS <= s || s + SS <= d)
    modifies a
    ensures forall k :: 0 <= k < a.Length ==> a[k] == if d <= k < d + SS then old(a[s + (k - d)]) else old(a[k])
  {
    forall k | d <= k < d + SS { a[k] := a[s + (k - d)]; }
  }

  method CopyWords(a: array<bv8>, d: nat, s: nat, n: nat, i0: nat, ghost m: seq<bv8>, ghost t: nat) returns (i: nat)
    requires Arguments(m, d, s, n, t) && Copied(m, a[..], d, s, i0) && i0 <= t && (s + i0) % SS == 0
    modifies a
    ensures i <= t && Copied(m, a[..], d, s, i)
  {
    i := i0;
    while i + SS <= n
      invariant i <= t && Copied(m, a[..], d, s, i) && (s + i) % SS == 0
      decreases n - i
    {
      var zero := CopyWord(a, d, s, n, i, m, t);
      if zero {
        break;
      }
      i := i + SS;
    }
  }

  /** The part for equal alignments: bytes up to a word boundary, then words. */
  method CopyAligned(a: array<bv8>, d: nat, s: nat, n: nat, ghost m: seq<bv8>, ghost t: nat) returns (i: nat, done: bool)
    requires Arguments(m, d, s, n, t) && Copied(m, a[..], d, s, 0)
    modifies a
    ensures if done then i == t && Finished(m, a[..], d, s, n, t) else i <= t && Copied(m, a[..], d, s, i)
  {
    i, done := CopyBytes(a, d, s, n, 0, true, m, t);
    if !done {
      if i == n || a[s + i] == 0 {
        done := true;
      } else {
        i := CopyWords(a, d, s, n, i, m, t);
      }
    }
  }

  /** `memset` of the rest of the target. */
  method Pad(a: array<bv8>, d: nat, s: nat, n: nat, t: nat, ghost m: seq<bv8>)
    requires d + n <= |m| && t <= n && Finished(m, a[..], d, s, n, t)
    modifies a
    ensures Finished(m, a[..], d, s, n, t) && forall k :: d + t <= k < d + n ==> a[k] == 0
  {
    var j := t;
    while j < n
      invariant t <= j <= n && Finished(m, a[..], d, s, n, t)
      invariant forall k :: d + t <= k < d + j ==> a[k] == 0
    {
      a[d + j] := 0;
      j := j + 1;
    }
  }

  /** `strncpy`: the string without its zero, at most `n` bytes of it, then zeros up to `n`; the
      address returned is that of the first byte not taken from the string. */
  method StrNCpy(a: array<bv8>, d: nat, s: nat, n: nat, ghost t: nat) returns (r: nat)
    requires Arguments(a[..], d, s, n, t)
    modifies a
    ensures r == d + t && Finished(old(a[..]), a[..], d, s, n, t)
    ensures forall k :: d + t <= k < d + n ==> a[k] == 0
  {
    ghost var m := a[..];
    var i, done := 0, false;
    if s % SS == d % SS {
      i, done := CopyAligned(a, d, s, n, m, t);
    }
    if !done {
      i, done := CopyBytes(a, d, s, n, i, false, m, t);
    }
    Pad(a, d, s, n, i, m);
    r := d + i;
  }
}
