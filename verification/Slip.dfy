/** SLIP framing (user/src/oscomp/ktool.py; the PROTOCOL section of RFC 1055): packets written to
    a serial line, and the two readers of the line. */
module Slip {
  import opened Wrappers

  const END: bv8 := 0xC0
  const ESC: bv8 := 0xDB
  const ESC_END: bv8 := 0xDC
  const ESC_ESC: bv8 := 0xDD

  type Packet = seq<bv8>

  // -------------------------------------------------------------------- writing

  /** `replace` of one byte by two. */
  function Replace(p: seq<bv8>, b: bv8, two: seq<bv8>): seq<bv8> {
    if p == [] then [] else (if p[0] == b then two else [p[0]]) + Replace(p[1..], b, two)
  }

  /** The packet as written: escape bytes first, then end bytes, between two end bytes. */
  function Frame(p: Packet): seq<bv8> {
    [END] + Replace(Replace(p, ESC, [ESC, ESC_ESC]), END, [ESC, ESC_END]) + [END]
  }

  function Frames(ps: seq<Packet>): seq<bv8> { if ps == [] then [] else Frame(ps[0]) + Frames(ps[1..]) }

  /** One byte, escaped. */
  function Escaped(b: bv8): seq<bv8> {
    if b == ESC then [ESC, ESC_ESC] else if b == END then [ESC, ESC_END] else [b]
  }

  function Body(p: Packet): seq<bv8> { if p == [] then [] else Escaped(p[0]) + Body(p[1..]) }

  lemma Assoc<T>(x: seq<T>, y: seq<T>, z: seq<T>)
    ensures x + (y + z) == (x + y) + z
  {
  }

  lemma Unit<T>(x: seq<T>)
    ensures [] + x == x && x + [] == x
  {
  }

  lemma {:induction false} ReplaceJoin(p: seq<bv8>, q: seq<bv8>, b: bv8, two: seq<bv8>)
    ensures Replace(p + q, b, two) == Replace(p, b, two) + Replace(q, b, two)
  {
    if p == [] {
      assert p + q == q;
    } else {
      var first, rest := if p[0] == b then two else [p[0]], p[1..];
      ReplaceJoin(rest, q, b, two);
      assert (p + q)[1..] == rest + q;
      Assoc(first, Replace(rest, b, two), Replace(q, b, two));
    }
  }

  /** The two replacements, one after the other, escape every byte once. */
  lemma {:induction false} TwoReplacements(p: Packet)
    ensures Replace(Replace(p, ESC, [ESC, ESC_ESC]), END, [ESC, ESC_END]) == Body(p)
  {
    if p != [] {
      TwoReplacements(p[1..]);
      var first := if p[0] == ESC then [ESC, ESC_ESC] else [p[0]];
      ReplaceJoin(first, Replace(p[1..], ESC, [ESC, ESC_ESC]), END, [ESC, ESC_END]);
      assert [ESC, ESC_ESC][1..] == [ESC_ESC];
      assert Replace(first, END, [ESC, ESC_END]) == Escaped(p[0]);
    }
  }

  // -------------------------------------------------------------------- reading

  /** The state of `slip_reader` between bytes: outside a packet, inside one, or after an error. */
  datatype Reader = Idle | In(data: Packet, escape: bool) | Failed

  /** One byte: the next state, and the packet it completes, if any. */
  function Next(r: Reader, b: bv8): (Reader, seq<Packet>) {
    match r
    case Failed => (Failed, [])
    case Idle => (if b == END then In([], false) else Failed, [])
    case In(data, true) =>
      (if b == ESC_END then In(data + [END], false) else if b == ESC_ESC then In(data + [ESC], false) else Failed, [])
    case In(data, false) =>
      if b == ESC then (In(data, true), [])
      else if b == END then (Idle, [data])
      else (In(data + [b], false), [])
  }

  function Feed(r: Reader, s: seq<bv8>): (Reader, seq<Packet>)
    decreases s
  {
    if s == [] then (r, []) else
      var (r1, out1) := Next(r, s[0]);
      var (r2, out2) := Feed(r1, s[1..]);
      (r2, out1 + out2)
  }

  lemma {:induction false} FeedJoin(r: Reader, s: seq<bv8>, t: seq<bv8>)
    ensures var (r1, out1) := Feed(r, s); var (r2, out2) := Feed(r1, t); Feed(r, s + t) == (r2, out1 + out2)
    decreases s
  {
    if s == [] {
      assert s + t == t;
      Unit(Feed(r, t).1);
    } else {
      var (r1, out1) := Next(r, s[0]);
      FeedJoin(r1, s[1..], t);
      assert (s + t)[1..] == s[1..] + t;
      var (r2, out2) := Feed(r1, s[1..]);
      Assoc(out1, out2, Feed(r2, t).1);
    }
  }

  lemma FeedOne(r: Reader, b: bv8)
    ensures Feed(r, [b]) == Next(r, b)
  {
    assert [b][1..] == [];
    Unit(Next(r, b).1);
  }

  lemma FeedTwo(r: Reader, b: bv8, c: bv8)
    requires Next(r, b).1 == []
    ensures Feed(r, [b, c]) == Next(Next(r, b).0, c)
  {
    assert [b, c] == [b] + [c];
    FeedJoin(r, [b], [c]);
    FeedOne(r, b);
    FeedOne(Next(r, b).0, c);
    Unit(Next(Next(r, b).0, c).1);
  }

  function Concat(chunks: seq<seq<bv8>>): seq<bv8> { if chunks == [] then [] else chunks[0] + Concat(chunks[1..]) }

  lemma {:induction false} ConcatSnoc(chunks: seq<seq<bv8>>, c: seq<bv8>)
    ensures Concat(chunks + [c]) == Concat(chunks) + c
  {
    if chunks == [] {
      assert chunks + [c] == [c];
    } else {
      ConcatSnoc(chunks[1..], c);
      assert (chunks + [c])[1..] == chunks[1..] + [c];
    }
  }

  /** `slip_reader` on the chunks that the port returns, up to its first error. */
  method SlipReader(chunks: seq<seq<bv8>>) returns (r: Reader, out: seq<Packet>)
    ensures (r, out) == Feed(Idle, Concat(chunks))
  {
    r, out := Idle, [];
    var i := 0;
    while i < |chunks|
      invariant i <= |chunks| && (r, out) == Feed(Idle, Concat(chunks[..i]))
    {
      assert chunks[..i + 1] == chunks[..i] + [chunks[i]];
      ConcatSnoc(chunks[..i], chunks[i]);
      FeedJoin(Idle, Concat(chunks[..i]), chunks[i]);
      var more;
      r, more := ReadChunk(r, chunks[i]);
      out := out + more;
      i := i + 1;
    }
    assert chunks[..|chunks|] == chunks;
  }

  /** The loop over the bytes of one chunk. */
  method ReadChunk(r0: Reader, chunk: seq<bv8>) returns (r: Reader, out: seq<Packet>)
    ensures (r, out) == Feed(r0, chunk)
  {
    r, out := r0, [];
    var i := 0;
    while i < |chunk|
      invariant i <= |chunk| && (r, out) == Feed(r0, chunk[..i])
    {
      var b := chunk[i];
      assert chunk[..i + 1] == chunk[..i] + [b];
      FeedJoin(r0, chunk[..i], [b]);
      var (next, packets) := Next(r, b);
      FeedOne(r, b);
      r, out := next, out + packets;
      i := i + 1;
    }
    assert chunk[..|chunk|] == chunk;
  }

  // ----------------------------------------------------------------- round trip

  lemma FeedEscaped(data: Packet, b: bv8)
    ensures Feed(In(data, false), Escaped(b)) == (In(data + [b], false), [])
  {
    FeedTwo(In(data, false), ESC, if b == ESC then ESC_ESC else ESC_END);
    FeedOne(In(data, false), b);
  }

  lemma {:induction false} FeedBody(data: Packet, p: Packet)
    ensures Feed(In(data, false), Body(p)) == (In(data + p, false), [])
    decreases p
  {
    if p == [] {
      assert data + p == data;
    } else {
      FeedBody(data + [p[0]], p[1..]);
      assert data + [p[0]] + p[1..] == data + p;
      FeedEscapedThen(data, p[0], Body(p[1..]));
    }
  }

  lemma FeedEscapedThen(data: Packet, b: bv8, rest: seq<bv8>)
    ensures Feed(In(data, false), Escaped(b) + rest) == Feed(In(data + [b], false), rest)
  {
    FeedEscaped(data, b);
    FeedJoin(In(data, false), Escaped(b), rest);
    Unit(Feed(In(data + [b], false), rest).1);
  }

  lemma FeedFrame(p: Packet)
    ensures Feed(Idle, Frame(p)) == (Idle, [p])
  {
    TwoReplacements(p);
    var body := Body(p);
    assert Frame(p) == [END] + (body + [END]);
    FeedJoin(Idle, [END], body + [END]);
    FeedOne(Idle, END);
    FeedBody([], p);
    assert [] + p == p;
    FeedJoin(In([], false), body, [END]);
    FeedOne(In(p, false), END);
    Unit([p]);
  }

  lemma {:induction false} FeedFrames(ps: seq<Packet>)
    ensures Feed(Idle, Frames(ps)) == (Idle, ps)
  {
    if ps != [] {
      FeedFrame(ps[0]);
      FeedFrames(ps[1..]);
      FeedJoin(Idle, Frame(ps[0]), Frames(ps[1..]));
      assert [ps[0]] + ps[1..] == ps;
    }
  }

  /** Whatever packets are written, and however the stream is cut into chunks, `slip_reader` yields
      exactly these packets. */
  lemma RoundTrip(ps: seq<Packet>, chunks: seq<seq<bv8>>)
    requires Concat(chunks) == Frames(ps)
    ensures Feed(Idle, Concat(chunks)) == (Idle, ps)
  {
    FeedFrames(ps);
  }

  // ------------------------------------------------------------ the other reader

  /** The second loop of `recv_one_return`: the packet, and the stream after it; nothing on an
      error, or where the stream ends too soon. */
  function RecvBody(s: seq<bv8>, data: Packet, escape: bool): (r: Option<(Packet, seq<bv8>)>)
    ensures r.Some? ==> |r.value.1| < |s|
  {
    if s == [] then None
    else if s[0] == END then Some((data, s[1..]))
    else if escape then
      if s[0] == ESC_END then RecvBody(s[1..], data + [END], false)
      else if s[0] == ESC_ESC then RecvBody(s[1..], data + [ESC], false)
      else None
    else if s[0] == ESC then RecvBody(s[1..], data, true)
    else RecvBody(s[1..], data + [s[0]], false)
  }

  /** `recv_one_return`: anything before the first end byte is skipped. */
  function Recv(s: seq<bv8>): (r: Option<(Packet, seq<bv8>)>)
    ensures r.Some? ==> |r.value.1| < |s|
  {
    if s == [] then None else if s[0] == END then RecvBody(s[1..], [], false) else Recv(s[1..])
  }

  function RecvAll(s: seq<bv8>): seq<Packet>
    decreases |s|
  {
    match Recv(s)
    case None => []
    case Some((p, rest)) => [p] + RecvAll(rest)
  }

  method RecvOneReturn(s: seq<bv8>) returns (r: Option<(Packet, seq<bv8>)>)
    ensures r == Recv(s)
  {
    var i := 0;
    while i < |s| && s[i] != END
      invariant i <= |s| && Recv(s[i..]) == Recv(s)
    {
      assert s[i..][1..] == s[i + 1..];
      i := i + 1;
    }
    if i == |s| {
      return None;
    }
    assert s[i..][1..] == s[i + 1..];
    r := RecvFrame(s[i + 1..]);
  }

  method RecvFrame(s: seq<bv8>) returns (r: Option<(Packet, seq<bv8>)>)
    ensures r == RecvBody(s, [], false)
  {
    var i, data, escape := 0, [], false;
    while i < |s|
      invariant i <= |s| && RecvBody(s[i..], data, escape) == RecvBody(s, [], false)
    {
      var c := s[i];
      assert s[i..][1..] == s[i + 1..];
      if c == END {
        return Some((data, s[i + 1..]));
      } else if escape {
        escape := false;
        if c == ESC_END {
          data := data + [END];
        } else if c == ESC_ESC {
          data := data + [ESC];
        } else {
          return None;
        }
      } else if c == ESC {
        escape := true;
      } else {
        data := data + [c];
      }
      i := i + 1;
    }
    r := None;
  }

  /** Inside a packet, the two readers agree on its end and on the stream after it, as long as the
      first one meets no error. */
  lemma {:induction false} BodiesAgree(s: seq<bv8>, data: Packet, escape: bool)
    requires Feed(In(data, escape), s).0 != Failed
    ensures var (r, out) := Feed(In(data, escape), s);
            match RecvBody(s, data, escape)
            case None => out == []
            case Some((p, rest)) => out != [] && out[0] == p && Feed(Idle, rest) == (r, out[1..])
    decreases s
  {
    if s != [] {
      var (r1, out1) := Next(In(data, escape), s[0]);
      if r1 == Failed {
        FailedStays(s[1..]);
      } else {
        if r1.In? {
          BodiesAgree(s[1..], r1.data, r1.escape);
        }
        var (_, out2) := Feed(r1, s[1..]);
        assert out1 == [] ==> out1 + out2 == out2;
        assert out1 != [] ==> (out1 + out2)[1..] == out2;
      }
    }
  }

  lemma {:induction false} FailedStays(s: seq<bv8>)
    ensures Feed(Failed, s) == (Failed, [])
  {
    if s != [] {
      FailedStays(s[1..]);
      Unit<Packet>([]);
    }
  }

  /** On every stream that `slip_reader` reads without error, repeated `recv_one_return` gives the
      same packets, one by one. */
  lemma {:induction false} ReadersAgree(s: seq<bv8>)
    requires Feed(Idle, s).0 != Failed
    ensures RecvAll(s) == Feed(Idle, s).1
    decreases |s|
  {
    if s != [] {
      if s[0] != END {
        FailedStays(s[1..]);
      } else {
        BodiesAgree(s[1..], [], false);
        match RecvBody(s[1..], [], false)
        case None =>
        case Some((p, rest)) => ReadersAgree(rest);
      }
    }
  }
}
