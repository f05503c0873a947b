/** Long file names: a name is cut into entries of 13 characters, which go to disk last part first
    (`fat32_fcb_init`), and is put together again from a stack of the entries read
    (`fat32_longname_popstack`). */
module LongName {

  const PART: nat := 13
  const CAPACITY: nat := 30
  const LAST: nat := 0x40

  /** The fields of a long directory entry that matter here; the three pieces of the name in it
      are taken together. */
  datatype Entry = Entry(ord: nat, name: seq<bv16>, chksum: bv8)

  /** LAST_LONG_ENTRY_BOOL and LAST_LONG_ENTRY_SET: the bit 0x40 of an order byte. */
  predicate IsLast(ord: nat) { ord / LAST % 2 == 1 }

  function SetLast(ord: nat): nat { if IsLast(ord) then ord else ord + LAST }

  /** A character that is not the end of the name. */
  predicate IsChar(w: bv16) { w != 0x0000 && w != 0xFFFF }

  function Widen(b: bv8): bv16 { (b as bv16) & 0x00FF }

  function Narrow(w: bv16): bv8 { (w & 0x00FF) as bv8 }

  lemma WidenNarrow(b: bv8)
    ensures Narrow(Widen(b)) == b && (b != 0 ==> IsChar(Widen(b))) && (b == 0 ==> Widen(b) == 0)
  {
  }

  // ----------------------------------------------------------------- checksum

  function ChkStep(sum: bv8, b: bv8): bv8 { (if sum & 1 != 0 then 0x80 else 0) + (sum >> 1) + b }

  function ChkSumOf(name: seq<bv8>): bv8 {
    if name == [] then 0 else ChkStep(ChkSumOf(name[..|name| - 1]), name[|name| - 1])
  }

  /** Bit `i` of a byte. */
  function Bit(b: bv8, i: nat): bool
    requires i < 8
  {
    b & (1 << i) != 0
  }

  /** A step is a rotation by one bit to the right and an addition. */
  lemma ChkStepRotates(sum: bv8, b: bv8)
    ensures ChkStep(sum, b) == ChkStep(sum, 0) + b
    ensures forall i :: 0 <= i < 8 ==> Bit(ChkStep(sum, 0), i) == Bit(sum, if i == 7 then 0 else i + 1)
  {
    forall i | 0 <= i < 8 ensures Bit(ChkStep(sum, 0), i) == Bit(sum, if i == 7 then 0 else i + 1) {
      ChkStepBits(sum);
    }
  }

  lemma ChkStepBits(sum: bv8)
    ensures var r := ChkStep(sum, 0);
      && Bit(r, 0) == Bit(sum, 1) && Bit(r, 1) == Bit(sum, 2) && Bit(r, 2) == Bit(sum, 3) && Bit(r, 3) == Bit(sum, 4)
      && Bit(r, 4) == Bit(sum, 5) && Bit(r, 5) == Bit(sum, 6) && Bit(r, 6) == Bit(sum, 7) && Bit(r, 7) == Bit(sum, 0)
  {
  }

  /** The checksum of the short name README.TXT. */
  lemma ChkSumOfReadme(n: seq<bv8>)
    requires n == [0x52, 0x45, 0x41, 0x44, 0x4D, 0x45, 0x20, 0x20, 0x54, 0x58, 0x54]
    ensures ChkSumOf(n) == 0x73
  {
    assert n[..1][..0] == [] && ChkSumOf(n[..1]) == 0x52;
    assert n[..2][..1] == n[..1] && ChkSumOf(n[..2]) == 0x6E;
    assert n[..3][..2] == n[..2] && ChkSumOf(n[..3]) == 0x78;
    assert n[..4][..3] == n[..3] && ChkSumOf(n[..4]) == 0x80;
    assert n[..5][..4] == n[..4] && ChkSumOf(n[..5]) == 0x8D;
    assert n[..6][..5] == n[..5] && ChkSumOf(n[..6]) == 0x0B;
    assert n[..7][..6] == n[..6] && ChkSumOf(n[..7]) == 0xA5;
    assert n[..8][..7] == n[..7] && ChkSumOf(n[..8]) == 0xF2;
    assert n[..9][..8] == n[..8] && ChkSumOf(n[..9]) == 0xCD;
    assert n[..10][..9] == n[..9] && ChkSumOf(n[..10]) == 0x3E;
    assert n[..11][..10] == n[..10] && ChkSumOf(n[..11]) == 0x73;
    assert n[..11] == n;
  }

  method ChkSum(name: seq<bv8>) returns (sum: bv8)
    ensures sum == ChkSumOf(name)
  {
    sum := 0;
    var i := 0;
    while i < |name|
      invariant i <= |name| && sum == ChkSumOf(name[..i])
    {
      assert name[..i + 1][..i] == name[..i];
      sum := ChkStep(sum, name[i]);
      i := i + 1;
    }
    assert name[..|name|] == name;
  }

  // -------------------------------------------------------------------- stack

  class Stack {
    const data: array<Entry>
    var top: int

    ghost predicate Valid()
      reads this
    {
      data.Length == CAPACITY && -1 <= top < CAPACITY
    }

    ghost function Contents(): seq<Entry>
      requires Valid()
      reads this, data
    {
      data[..top + 1]
    }

    constructor ()
      ensures Valid() && Contents() == [] && fresh(data)
    {
      data := new Entry[CAPACITY](_ => Entry(0, [], 0));
      top := -1;
    }

    predicate IsEmpty()
      requires Valid()
      reads this, data
      ensures IsEmpty() <==> Contents() == []
    {
      top == -1
    }

    /** Panics when full. */
    method Push(e: Entry)
      requires Valid() && |Contents()| < CAPACITY
      modifies this, data
      ensures Valid() && Contents() == old(Contents()) + [e]
    {
      top := top + 1;
      data[top] := e;
    }

    /** Panics when empty. */
    method Pop() returns (e: Entry)
      requires Valid() && Contents() != []
      modifies this
      ensures Valid() && old(Contents()) == Contents() + [e]
    {
      e := data[top];
      top := top - 1;
    }
  }

  // ------------------------------------------------------------------- encode

  ghost predicate IsName(name: seq<bv8>) { forall i :: 0 <= i < |name| ==> name[i] != 0 }

  /** How many entries a name of `len` characters takes. */
  function Parts(len: nat): (n: nat)
    ensures InParts(len, n)
  {
    (len + PART - 1) / PART
  }

  predicate InParts(len: nat, n: nat) { len <= PART * n < len + PART }

  /** Character `j` of the entries: the name, a zero, then filler. */
  function WordAt(name: seq<bv8>, j: nat): bv16 {
    if j < |name| then Widen(name[j]) else if j == |name| then 0 else 0xFFFF
  }

  function Words(name: seq<bv8>, i: nat): (ws: seq<bv16>)
    ensures |ws| == PART && forall k :: 0 <= k < PART ==> ws[k] == WordAt(name, PART * i + k)
  {
    seq(PART, k requires 0 <= k < PART => WordAt(name, PART * i + k))
  }

  function Order(i: nat, n: nat): nat { if i + 1 == n then SetLast(i + 1) else i + 1 }

  /** The entry with part `i` of a name of `n` parts. */
  function EntryOf(name: seq<bv8>, n: nat, chk: bv8, i: nat): Entry { Entry(Order(i, n), Words(name, i), chk) }

  /** The entries as they go to disk. */
  function Encoded(name: seq<bv8>, n: nat, chk: bv8): (es: seq<Entry>)
    ensures |es| == n && forall k :: 0 <= k < n ==> es[k] == EntryOf(name, n, chk, n - 1 - k)
  {
    seq(n, k requires 0 <= k < n => EntryOf(name, n, chk, n - 1 - k))
  }

  /** One entry's characters: the loops over its three pieces, with their shared end flag. */
  method FillWords(name: seq<bv8>, i: nat) returns (ws: seq<bv16>, idx: nat)
    requires IsName(name) && PART * i < |name|
    ensures ws == Words(name, i)
    ensures idx == if PART * (i + 1) <= |name| then PART * (i + 1) else |name| + 1
  {
    ws := seq(PART, _ => 0xFFFF);
    idx := PART * i;
    var k, end := 0, false;
    while k < PART && !end
      invariant k <= PART && |ws| == PART && idx == PART * i + k && idx <= |name| + 1
      invariant end <==> idx == |name| + 1
      invariant forall j :: 0 <= j < k ==> ws[j] == WordAt(name, PART * i + j)
      invariant forall j :: k <= j < PART ==> ws[j] == 0xFFFF
    {
      var b := if idx < |name| then name[idx] else 0;
      WidenNarrow(b);
      ws := ws[k := Widen(b)];
      if !IsChar(Widen(b)) {
        end := true;
      }
      idx := idx + 1;
      k := k + 1;
    }
    assert ws == Words(name, i);
  }

  /** The first `i` parts, in the order they are pushed. */
  ghost function Pushed(name: seq<bv8>, n: nat, chk: bv8, i: nat): (es: seq<Entry>)
    ensures |es| == i && forall k :: 0 <= k < i ==> es[k] == EntryOf(name, n, chk, k)
  {
    seq(i, k requires 0 <= k < i => EntryOf(name, n, chk, k))
  }

  /** A name that compares equal to the name of a dot entry: it starts with a dot. */
  predicate IsDotName(name: seq<bv8>) { name != [] && name[0] == 0x2E }

  /** The long entries of a file: a name that starts with a dot gets none. */
  function LongEntries(name: seq<bv8>, shortName: seq<bv8>): seq<Entry> {
    if IsDotName(name) then [] else Encoded(name, Parts(|name|), ChkSumOf(shortName))
  }

  /** The entries of a name of 14 characters, as they lie on the disk: the last character with the
      last order number, then a zero and filler; behind it the first 13 with number 1. */
  lemma FourteenCharacters(name: seq<bv8>, shortName: seq<bv8>)
    requires |name| == 14 && !IsDotName(name)
    ensures var es := LongEntries(name, shortName);
      && |es| == 2 && es[0].ord == 0x42 && es[1].ord == 0x01
      && es[0].chksum == es[1].chksum == ChkSumOf(shortName)
      && |es[0].name| == |es[1].name| == PART
      && es[0].name[0] == Widen(name[13]) && es[0].name[1] == 0x0000 && (forall k :: 2 <= k < PART ==> es[0].name[k] == 0xFFFF)
      && (forall k :: 0 <= k < PART ==> es[1].name[k] == Widen(name[k]))
  {
    assert Parts(14) == 2;
  }

  /** `fat32_fcb_init`, as far as the long entries go. */
  method FcbInit(name: seq<bv8>, shortName: seq<bv8>) returns (es: seq<Entry>)
    requires IsName(name) && Parts(|name|) <= CAPACITY
    ensures es == LongEntries(name, shortName)
  {
    if IsDotName(name) {
      return [];
    }
    var chk := ChkSum(shortName);
    var st := new Stack();
    var n := Parts(|name|);
    PushParts(st, name, n, chk);
    es := PopParts(st, name, n, chk);
  }

  /** The loop that empties the stack. */
  method PopParts(st: Stack, ghost name: seq<bv8>, ghost n: nat, ghost chk: bv8) returns (es: seq<Entry>)
    requires st.Valid() && st.Contents() == Pushed(name, n, chk, n)
    modifies st
    ensures es == Encoded(name, n, chk)
  {
    es := [];
    while !st.IsEmpty()
      invariant st.Valid() && |st.Contents()| + |es| == n
      invariant st.Contents() == Pushed(name, n, chk, |st.Contents()|)
      invariant forall k :: 0 <= k < |es| ==> es[k] == EntryOf(name, n, chk, n - 1 - k)
      decreases |st.Contents()|
    {
      ghost var k := |st.Contents()|;
      var e := st.Pop();
      assert e == Pushed(name, n, chk, k)[k - 1];
      assert st.Contents() == Pushed(name, n, chk, k)[..k - 1] == Pushed(name, n, chk, k - 1);
      es := es + [e];
    }
  }

  /** The loop over the parts. Marking the last order also ends the loop. */
  method PushParts(st: Stack, name: seq<bv8>, n: nat, chk: bv8)
    requires st.Valid() && st.Contents() == [] && IsName(name) && InParts(|name|, n) && n <= CAPACITY
    modifies st, st.data
    ensures st.Valid() && st.Contents() == Pushed(name, n, chk, n)
  {
    var i, idx := 1, 0;
    while i <= n
      invariant 1 <= i && st.Valid()
      invariant i <= n ==> idx == PART * (i - 1) && st.Contents() == Pushed(name, n, chk, i - 1)
      invariant i > n ==> st.Contents() == Pushed(name, n, chk, n)
      decreases if i <= n then n + 1 - i else 0
    {
      if idx == |name| {
        break;
      }
      var part := i - 1;
      if i == n {
        i := SetLast(i);
      }
      var ord := i;
      var ws;
      ws, idx := FillWords(name, part);
      st.Push(Entry(ord, ws, chk));
      assert st.Contents() == Pushed(name, n, chk, part) + [EntryOf(name, n, chk, part)];
      assert st.Contents() == Pushed(name, n, chk, part + 1);
      i := i + 1;
    }
  }

  // ------------------------------------------------------------------- decode

  /** `fat32_filter_longname`: the characters up to and with the first that ends the name. */
  function Filter(ws: seq<bv16>): (bs: seq<bv8>)
    ensures |bs| <= |ws|
  {
    if ws == [] then [] else
    if IsChar(ws[0]) then [Narrow(ws[0])] + Filter(ws[1..]) else [Narrow(ws[0])]
  }

  method FilterLongName(ws: seq<bv16>) returns (bs: seq<bv8>)
    ensures bs == Filter(ws)
  {
    bs := [];
    var i := 0;
    while i < |ws|
      invariant i <= |ws| && bs + Filter(ws[i..]) == Filter(ws)
    {
      bs := bs + [Narrow(ws[i])];
      if !IsChar(ws[i]) {
        return;
      }
      assert ws[i..][1..] == ws[i + 1..];
      i := i + 1;
    }
  }

  datatype Popped = Invalid | Name(last: bool, bytes: seq<bv8>)

  /** What is made of the entries on the stack, the top one being last: orders must count up from
      `cnt`, but for the bottom entry, and checksums must agree; the bottom entry says whether it
      is the last part. */
  function Decode(st: seq<Entry>, cnt: nat, chk: bv8, bytes: seq<bv8>): Popped
    requires st != []
    decreases |st|
  {
    var e, rest := st[|st| - 1], st[..|st| - 1];
    if (rest != [] && cnt != e.ord) || e.chksum != chk then Invalid
    else if rest == [] then Name(IsLast(e.ord), bytes + Filter(e.name))
    else Decode(rest, (cnt + 1) % 256, chk, bytes + Filter(e.name))
  }

  lemma DecodeTop(rest: seq<Entry>, e: Entry, cnt: nat, chk: bv8, bytes: seq<bv8>)
    ensures Decode(rest + [e], cnt, chk, bytes) ==
            if (rest != [] && cnt != e.ord) || e.chksum != chk then Invalid
            else if rest == [] then Name(IsLast(e.ord), bytes + Filter(e.name))
            else Decode(rest, (cnt + 1) % 256, chk, bytes + Filter(e.name))
  {
    assert (rest + [e])[..|rest|] == rest;
  }

  /** `fat32_longname_popstack`. */
  method PopStack(st: Stack, shortName: seq<bv8>) returns (valid: bool, bytes: seq<bv8>)
    requires st.Valid()
    modifies st, st.data
    ensures old(st.Contents()) == [] ==> !valid
    ensures old(st.Contents()) != [] ==>
              match Decode(old(st.Contents()), 1, ChkSumOf(shortName), [])
              case Invalid => !valid
              case Name(last, bs) => valid == last && bytes == bs
  {
    valid, bytes := false, [];
    if st.IsEmpty() {
      return;
    }
    var cnt: nat := 1;
    var e := Entry(0, [], 0);
    ghost var all, chk := Decode(st.Contents(), 1, ChkSumOf(shortName), []), ChkSumOf(shortName);
    while !st.IsEmpty()
      invariant st.Valid() && !valid
      invariant st.Contents() != [] ==> Decode(st.Contents(), cnt, chk, bytes) == all
      invariant st.Contents() == [] ==> all == Name(IsLast(e.ord), bytes)
      decreases |st.Contents()|
    {
      e := st.Pop();
      DecodeTop(st.Contents(), e, cnt, chk, bytes);
      if !st.IsEmpty() && cnt != e.ord {
        return;
      }
      cnt := (cnt + 1) % 256;
      var sum := ChkSum(shortName);
      if e.chksum != sum {
        return;
      }
      var part := FilterLongName(e.name);
      bytes := bytes + part;
    }
    valid := IsLast(e.ord);
  }

  // --------------------------------------------------------------- round trip

  /** The string in a buffer: up to the first zero. */
  function CString(bs: seq<bv8>): seq<bv8> {
    if bs == [] || bs[0] == 0 then [] else [bs[0]] + CString(bs[1..])
  }

  lemma {:induction false} CStringOf(name: seq<bv8>, rest: seq<bv8>)
    requires IsName(name) && rest != [] && rest[0] == 0
    ensures CString(name + rest) == name
  {
    if name == [] {
      assert name + rest == rest;
    } else {
      CStringOf(name[1..], rest);
      assert (name + rest)[1..] == name[1..] + rest;
    }
  }

  /** The bytes that part `i` gives back: its piece of the name, and the zero if there is one. */
  function Piece(name: seq<bv8>, i: nat): seq<bv8>
    requires PART * i <= |name|
  {
    if PART * (i + 1) <= |name| then name[PART * i..PART * (i + 1)] else name[PART * i..] + [0]
  }

  lemma {:induction false} FilterFrom(name: seq<bv8>, i: nat, k: nat)
    requires IsName(name) && PART * i <= |name| && k <= PART && PART * i + k <= |name|
    ensures Filter(Words(name, i)[k..]) == Piece(name, i)[k..]
    decreases PART - k
  {
    var ws, p := Words(name, i)[k..], Piece(name, i);
    if k < PART {
      WidenNarrow(if PART * i + k < |name| then name[PART * i + k] else 0);
      assert ws[0] == WordAt(name, PART * i + k);
      if PART * i + k < |name| {
        FilterFrom(name, i, k + 1);
        assert ws[1..] == Words(name, i)[k + 1..];
        assert p[k..] == [p[k]] + p[k + 1..];
      } else {
        assert p[k..] == [0];
      }
    }
  }

  lemma FilterWords(name: seq<bv8>, i: nat)
    requires IsName(name) && PART * i <= |name|
    ensures Filter(Words(name, i)) == Piece(name, i)
  {
    FilterFrom(name, i, 0);
    assert Words(name, i)[0..] == Words(name, i) && Piece(name, i)[0..] == Piece(name, i);
  }

  /** What the buffer holds at the end: the name, and a zero unless it fills its last entry. */
  function Buffered(name: seq<bv8>, n: nat): seq<bv8> { if PART * n == |name| then name else name + [0] }

  lemma OrderBits(i: nat, n: nat)
    requires i < n <= CAPACITY
    ensures if i + 1 < n then Order(i, n) == i + 1 else IsLast(Order(i, n))
  {
  }

  lemma PieceJoins(name: seq<bv8>, n: nat, i: nat)
    requires InParts(|name|, n) && i < n
    ensures PART * i < |name|
    ensures i + 1 < n ==> PART * (i + 1) < |name| && name[..PART * i] + Piece(name, i) == name[..PART * (i + 1)]
    ensures i + 1 == n ==> name[..PART * i] + Piece(name, i) == Buffered(name, n)
  {
  }

  lemma DecodeGood(rest: seq<Entry>, e: Entry, cnt: nat, chk: bv8, bytes: seq<bv8>)
    requires e.chksum == chk && cnt < 255 && (rest != [] ==> e.ord == cnt)
    ensures Decode(rest + [e], cnt, chk, bytes) ==
            if rest == [] then Name(IsLast(e.ord), bytes + Filter(e.name))
            else Decode(rest, cnt + 1, chk, bytes + Filter(e.name))
  {
    DecodeTop(rest, e, cnt, chk, bytes);
  }

  /** With parts 0 to `i` taken off the stack and their bytes put together, the rest follows. */
  lemma {:induction false} DecodeFrom(name: seq<bv8>, n: nat, chk: bv8, i: nat, es: seq<Entry>)
    requires IsName(name) && InParts(|name|, n) && i < n <= CAPACITY && es == Encoded(name, n, chk)
    ensures PART * i < |name|
    ensures Decode(es[..n - i], i + 1, chk, name[..PART * i]) == Name(true, Buffered(name, n))
    decreases n - i
  {
    var rest, e := es[..n - (i + 1)], EntryOf(name, n, chk, i);
    assert es[..n - i] == rest + [e];
    DecodeGood(rest, e, i + 1, chk, name[..PART * i]);
    PieceJoins(name, n, i);
    FilterWords(name, i);
    OrderBits(i, n);
    if i + 1 < n {
      DecodeFrom(name, n, chk, i + 1, es);
    }
  }

  /** Writing a name and reading it back: the entries on disk, pushed as they are read, give the
      name again, and are recognised as complete. */
  lemma RoundTrip(name: seq<bv8>, chk: bv8)
    requires IsName(name) && name != [] && Parts(|name|) <= CAPACITY
    ensures var n := Parts(|name|);
            && Encoded(name, n, chk) != []
            && Decode(Encoded(name, n, chk), 1, chk, []) == Name(true, Buffered(name, n))
            && CString(Buffered(name, n) + [0]) == name
  {
    var n := Parts(|name|);
    var es := Encoded(name, n, chk);
    DecodeFrom(name, n, chk, 0, es);
    assert es[..n] == es && name[..0] == [];
    CStringOf(name, [0]);
    CStringOf(name, [0, 0]);
    assert name + [0] + [0] == name + [0, 0];
  }

  /** A name of at most 254 characters fits the stack; its bytes, with the closing zero, fit a
      buffer of 255 exactly when there are at most 253. */
  lemma NameFits(name: seq<bv8>)
    requires |name| <= 254
    ensures Parts(|name|) <= 20 <= CAPACITY
    ensures |Buffered(name, Parts(|name|))| + 1 <= 255 <==> |name| <= 253
  {
  }

  /** The failing case: every name of 254 characters. */
  lemma LongestNameNeedsMore(name: seq<bv8>)
    requires |name| == 254
    ensures |Buffered(name, Parts(|name|))| + 1 == 256
  {
  }
}
