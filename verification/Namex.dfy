/** Path lookup: `skepelem` and `inode_namex` on the inode table. */
module Namex {
  import opened Wrappers
  import opened InodeTable

  // -------------------------------------------------------------------- paths

  /** How many leading characters of `p` are slashes, or slashes and dots. */
  function Leading(p: string, dots: bool): (n: nat)
    ensures n <= |p| && forall i :: 0 <= i < n ==> p[i] == '/' || (dots && p[i] == '.')
    ensures n < |p| ==> p[n] != '/' && (dots ==> p[n] != '.')
  {
    if p != [] && (p[0] == '/' || (dots && p[0] == '.')) then 1 + Leading(p[1..], dots) else 0
  }

  /** The length of the element at the start of `p`. */
  function ElementLength(p: string): (n: nat)
    ensures n <= |p| && (forall i :: 0 <= i < n ==> p[i] != '/') && (n < |p| ==> p[n] == '/')
  {
    if p != [] && p[0] != '/' then 1 + ElementLength(p[1..]) else 0
  }

  /** `skepelem`: the next element of a path, and the rest. */
  function Skip(p: string): (r: Option<(string, string)>)
    ensures r.Some? ==> |r.value.1| < |p| && r.value.0 != []
  {
    var i := Leading(p, true);
    if i == |p| then None else Some(ElementAt(p, i, i + ElementLength(p[i..])))
  }

  /** The element from `i` to `j`, and what is left after the slashes behind it. */
  function ElementAt(p: string, i: nat, j: nat): (r: (string, string))
    requires i <= j <= |p|
    ensures |r.0| == j - i && |r.1| <= |p| - j
  {
    (p[i..j], p[j + Leading(p[j..], false)..])
  }

  /** The elements of a path, and what is left after the last. */
  function Elements(p: string): seq<string>
    decreases |p|
  {
    match Skip(p)
    case None => []
    case Some((name, rest)) => [name] + Elements(rest)
  }

  function Tail(p: string): string
    decreases |p|
  {
    match Skip(p)
    case None => p
    case Some((_, rest)) => Tail(rest)
  }

  // --------------------------------------------------------------------- tree

  datatype Tree = Tree(isDir: (nat, nat) -> bool, find: (nat, nat, string) -> Option<nat>)

  /** The inode that elements `es` lead to. */
  ghost function Walk(tree: Tree, dev: nat, ino: nat, es: seq<string>): Option<nat>
    decreases es
  {
    if es == [] then Some(ino)
    else if !tree.isDir(dev, ino) then None
    else match tree.find(dev, ino, es[0])
      case None => None
      case Some(next) => Walk(tree, dev, next, es[1..])
  }

  /** What a path with these elements and this tail names: the inode its elements lead to, or for
      `parent` the directory that holds the last of them, which then has to end the path. */
  ghost function Named(tree: Tree, dev: nat, ino: nat, es: seq<string>, tail: string, parent: bool): Option<nat> {
    if !parent then Walk(tree, dev, ino, es)
    else if es == [] || tail != [] then None
    else match Walk(tree, dev, ino, es[..|es| - 1])
      case None => None
      case Some(k) => if tree.isDir(dev, k) then Some(k) else None
  }

  /** One element further. */
  lemma NamedStep(tree: Tree, dev: nat, ino: nat, name: string, es: seq<string>, tail: string, parent: bool)
    ensures Named(tree, dev, ino, [name] + es, tail, parent) ==
              if !tree.isDir(dev, ino) then None
              else if parent && es == [] && tail == [] then Some(ino)
              else match tree.find(dev, ino, name)
                case None => None
                case Some(next) => Named(tree, dev, next, es, tail, parent)
  {
    var all := [name] + es;
    assert all[1..] == es;
    if es == [] {
      assert all[..|all| - 1] == [];
    } else {
      var init := all[..|all| - 1];
      assert init == [name] + es[..|es| - 1];
      assert init[1..] == es[..|es| - 1];
    }
  }

  lemma RestIsEmpty(p: string)
    ensures p == [] <==> Elements(p) == [] && Tail(p) == []
  {
  }

  method CountLeading(p: string, dots: bool) returns (n: nat)
    ensures n == Leading(p, dots)
  {
    n := 0;
    while n < |p| && (p[n] == '/' || (dots && p[n] == '.'))
      invariant n <= |p| && n + Leading(p[n..], dots) == Leading(p, dots)
    {
      assert p[n..][1..] == p[n + 1..];
      n := n + 1;
    }
  }

  method CountElement(p: string) returns (n: nat)
    ensures n == ElementLength(p)
  {
    n := 0;
    while n < |p| && p[n] != '/'
      invariant n <= |p| && n + ElementLength(p[n..]) == ElementLength(p)
    {
      assert p[n..][1..] == p[n + 1..];
      n := n + 1;
    }
  }

  /** `skepelem` as it runs: three loops that move a pointer. */
  method Skepelem(path: string) returns (r: Option<(string, string)>)
    ensures r == Skip(path)
  {
    var i := CountLeading(path, true);
    if i == |path| {
      return None;
    }
    var n := CountElement(path[i..]);
    var j := i + n;
    var m := CountLeading(path[j..], false);
    var e := (path[i..j], path[j + m..]);
    assert e == ElementAt(path, i, j);
    r := Some(e);
  }

  // -------------------------------------------------------------------- lookup

  /** Where a path starts: at the root for a slash, at the parent of the working directory for a
      dot (the comparison with two dots looks at one character only), else there itself. */
  function Start(path: string, cwd: nat, up: nat): nat {
    if path != [] && path[0] == '/' then NENTRY else if path != [] && path[0] == '.' then up else cwd
  }

  /** From table `t` to `u` only one reference was taken, on entry `ip`, and referenced entries
      still stand for the same inodes. */
  ghost predicate Held(t: seq<Slot>, u: seq<Slot>, ip: nat) {
    && Shape(t) && Shape(u) && ip <= NENTRY
    && (forall i :: 0 <= i <= NENTRY ==> u[i].ref == t[i].ref + if i == ip then 1 else 0)
    && (forall i :: 0 <= i <= NENTRY && t[i].ref > 0 ==> u[i].dev == t[i].dev && u[i].ino == t[i].ino)
  }

  /** As before: no reference was taken. */
  ghost predicate Released(t: seq<Slot>, u: seq<Slot>) {
    && Shape(t) && Shape(u)
    && (forall i :: 0 <= i <= NENTRY ==> u[i].ref == t[i].ref)
    && (forall i :: 0 <= i <= NENTRY && t[i].ref > 0 ==> u[i].dev == t[i].dev && u[i].ino == t[i].ino)
  }

  /** No inode is in the table twice, and giving back a reference to `ip` frees nothing. */
  ghost predicate Sound(u: seq<Slot>, ip: nat)
    requires Shape(u) && ip <= NENTRY
  {
    Unique(u) && (u[ip].ref >= 2 || u[ip].nlink > 0)
  }

  function Lock(t: seq<Slot>, i: nat): seq<Slot>
    requires i < |t|
  {
    t[i := t[i].(valid := true)]
  }

  lemma PutReleases(t: seq<Slot>, u: seq<Slot>, ip: nat)
    requires Held(t, u, ip)
    ensures Released(t, Put(u, ip))
    ensures Sound(u, ip) ==> !LastUnlinked(u[ip]) && Unique(Put(u, ip))
  {
    if Sound(u, ip) {
      PutUnique(u, ip);
    }
  }

  lemma LockHolds(t: seq<Slot>, u: seq<Slot>, ip: nat)
    requires Held(t, u, ip)
    ensures Held(t, Lock(u, ip), ip)
    ensures Sound(u, ip) ==> Sound(Lock(u, ip), ip)
  {
    var v := Lock(u, ip);
    if Unique(u) {
      forall a, b | 0 <= a < b < NENTRY && v[a].ref > 0 && v[b].ref > 0 ensures !SameKey(v, a, b) {
        assert !SameKey(u, a, b);
      }
    }
  }

  /** From one inode to the next: the new reference first, then the old one back. */
  lemma GotHolds(t: seq<Slot>, u: seq<Slot>, ip: nat, dev: nat, ino: nat)
    requires Held(t, u, ip) && Slotted(u, dev, ino) < NENTRY
    ensures var v, k := Got(u, dev, ino, ip), Slotted(u, dev, ino);
            && v[ip].ref > 0
            && Held(t, Put(v, ip), k) && Put(v, ip)[k].dev == dev && Put(v, ip)[k].ino == ino
            && (Sound(u, ip) ==> !LastUnlinked(v[ip]) && Sound(Put(v, ip), k))
  {
    var v, k := Got(u, dev, ino, ip), Slotted(u, dev, ino);
    if Sound(u, ip) {
      GotUnique(u, dev, ino, ip);
      PutUnique(v, ip);
    }
  }

  /** The outcome of a lookup: `ok` is false where the table is full and the kernel panics;
      `freed` says whether the data of some inode was freed on the way. */
  datatype Outcome = Outcome(ok: bool, r: Option<nat>, table: seq<Slot>, freed: bool)

  ghost function GiveUp(t: seq<Slot>, ip: nat): Outcome
    requires ip < |t| && t[ip].ref > 0
  {
    Outcome(true, None, Put(t, ip), LastUnlinked(t[ip]))
  }

  /** Where one turn of the loop leads. */
  datatype Turn = Done(w: Outcome) | Next(table: seq<Slot>, k: nat, freed: bool)

  /** One turn of the loop of `inode_namex`, at entry `ip`; `stop` is to stop one level early. */
  ghost function Turned(tree: Tree, t: seq<Slot>, ip: nat, name: string, stop: bool): (e: Turn)
    requires Shape(t) && ip <= NENTRY && t[ip].ref > 0
    ensures e.Next? ==> Shape(e.table) && e.k <= NENTRY && e.table[e.k].ref > 0
  {
    var u, dev, ino := Lock(t, ip), t[ip].dev, t[ip].ino;
    if !tree.isDir(dev, ino) then Done(GiveUp(u, ip))
    else if stop then Done(Outcome(true, Some(ip), u, false))
    else match tree.find(dev, ino, name)
      case None => Done(GiveUp(u, ip))
      case Some(found) =>
        var k := Slotted(u, dev, found);
        if k == NENTRY then Done(Outcome(false, None, u, false))
        else var v := Got(u, dev, found, ip); Next(Put(v, ip), k, LastUnlinked(v[ip]))
  }

  /** The loop, with elements `es` to go. */
  ghost function Walked(tree: Tree, t: seq<Slot>, ip: nat, es: seq<string>, tail: string, parent: bool): Outcome
    requires Shape(t) && ip <= NENTRY && t[ip].ref > 0
    decreases |es|
  {
    if es == [] then if parent then GiveUp(t, ip) else Outcome(true, Some(ip), t, false)
    else
      var e := Turned(tree, t, ip, es[0], parent && es[1..] == [] && tail == []);
      if e.Done? then e.w else AlsoFreed(Walked(tree, e.table, e.k, es[1..], tail, parent), e.freed)
  }

  ghost function AlsoFreed(w: Outcome, freed: bool): Outcome { w.(freed := w.freed || freed) }

  lemma WalkedStep(tree: Tree, t: seq<Slot>, ip: nat, name: string, es: seq<string>, tail: string, parent: bool)
    requires Shape(t) && ip <= NENTRY && t[ip].ref > 0
    ensures var e := Turned(tree, t, ip, name, parent && es == [] && tail == []);
            Walked(tree, t, ip, [name] + es, tail, parent) ==
              if e.Done? then e.w else AlsoFreed(Walked(tree, e.table, e.k, es, tail, parent), e.freed)
  {
    assert ([name] + es)[1..] == es;
  }

  /** What a lookup leaves behind. */
  ghost predicate Kept(t: seq<Slot>, w: Outcome) {
    && Shape(t) && Shape(w.table)
    && (w.ok && w.r == None ==> Released(t, w.table))
    && (w.ok && w.r.Some? ==> Held(t, w.table, w.r.value))
  }

  lemma TurnKeeps(tree: Tree, t0: seq<Slot>, t: seq<Slot>, ip: nat, name: string, stop: bool)
    requires Held(t0, t, ip)
    ensures match Turned(tree, t, ip, name, stop)
            case Done(w) => Kept(t0, w) && (Sound(t, ip) ==> !w.freed && Unique(w.table))
            case Next(u, k, f) => Held(t0, u, k) && (Sound(t, ip) ==> !f && Sound(u, k))
  {
    LockHolds(t0, t, ip);
    var u, dev, ino := Lock(t, ip), t[ip].dev, t[ip].ino;
    PutReleases(t0, u, ip);
    if tree.find(dev, ino, name).Some? && Slotted(u, dev, tree.find(dev, ino, name).value) < NENTRY {
      GotHolds(t0, u, ip, dev, tree.find(dev, ino, name).value);
    }
  }

  /** The loop takes one reference, on its result, and no other, whatever the table was; and from
      a table without duplicates it makes none and frees nothing. */
  lemma {:induction false} WalkedKeeps(tree: Tree, t0: seq<Slot>, t: seq<Slot>, ip: nat, es: seq<string>, tail: string, parent: bool)
    requires Held(t0, t, ip)
    ensures var w := Walked(tree, t, ip, es, tail, parent);
            Kept(t0, w) && (Sound(t, ip) ==> !w.freed && Unique(w.table))
    decreases |es|
  {
    if es == [] {
      PutReleases(t0, t, ip);
    } else {
      var stop := parent && es[1..] == [] && tail == [];
      TurnKeeps(tree, t0, t, ip, es[0], stop);
      match Turned(tree, t, ip, es[0], stop)
      case Done(_) =>
      case Next(u, k, _) => WalkedKeeps(tree, t0, u, k, es[1..], tail, parent);
    }
  }

  /** The result `w` stands for inode `ino` of `dev`. */
  ghost predicate Finds(w: Outcome, dev: nat, found: Option<nat>) {
    match found
    case None => w.r == None
    case Some(ino) => w.r.Some? && w.r.value < |w.table| && w.table[w.r.value].dev == dev && w.table[w.r.value].ino == ino
  }

  /** ... and the result is what the elements name. */
  lemma {:induction false} WalkedNames(tree: Tree, t: seq<Slot>, ip: nat, es: seq<string>, tail: string, parent: bool)
    requires Shape(t) && ip <= NENTRY && t[ip].ref > 0
    ensures var w := Walked(tree, t, ip, es, tail, parent);
            w.ok ==> Finds(w, t[ip].dev, Named(tree, t[ip].dev, t[ip].ino, es, tail, parent))
    decreases |es|
  {
    if es != [] {
      assert es == [es[0]] + es[1..];
      NamedStep(tree, t[ip].dev, t[ip].ino, es[0], es[1..], tail, parent);
      match Turned(tree, t, ip, es[0], parent && es[1..] == [] && tail == [])
      case Done(_) =>
      case Next(u, k, _) => WalkedNames(tree, u, k, es[1..], tail, parent);
    }
  }

  /** `inode_namex` from working directory `cwd`. */
  ghost function LookedUp(tree: Tree, t: seq<Slot>, path: string, parent: bool, cwd: nat): Outcome
    requires Shape(t) && cwd <= NENTRY
  {
    var s := Start(path, cwd, t[cwd].parent);
    Walked(tree, Dup(t, s), s, Elements(path), Tail(path), parent)
  }

  /** The entry a lookup starts at is referenced, or has links and no twin. */
  ghost predicate StartOk(t: seq<Slot>, s: nat)
    requires Shape(t) && s <= NENTRY
  {
    t[s].ref > 0 || (t[s].nlink > 0 && !Twin(t, s))
  }

  lemma StartHolds(t: seq<Slot>, s: nat)
    requires Shape(t) && s <= NENTRY
    ensures Held(t, Dup(t, s), s) && (Unique(t) && StartOk(t, s) ==> Sound(Dup(t, s), s))
  {
    if Unique(t) {
      DupUniqueIff(t, s);
    }
  }

  class Inodes {
    const slots: array<Slot>
    const tree: Tree

    constructor (slots: array<Slot>, tree: Tree)
      ensures this.slots == slots && this.tree == tree
    {
      this.slots, this.tree := slots, tree;
    }

    /** `fat32_inode_get`, with the link count and the parent set as `fat32_inode_dirlookup` sets
        them; nothing where it panics. */
    method Get(dev: nat, ino: nat, dir: Index) returns (r: Option<nat>)
      requires slots.Length == NENTRY + 1
      modifies slots
      ensures var k := Slotted(old(slots[..]), dev, ino);
              if k < NENTRY then r == Some(k) && slots[..] == Got(old(slots[..]), dev, ino, dir) else r == None && slots[..] == old(slots[..])
    {
      ghost var t := slots[..];
      var i, empty := 0, NENTRY;
      while i < NENTRY
        invariant i <= NENTRY && empty <= NENTRY && slots[..] == t
        invariant FirstMatch(t, dev, ino, i) == FirstMatch(t, dev, ino, First(t))
        invariant if empty < NENTRY then empty == FirstUnused(t, First(t)) else FirstUnused(t, i) == FirstUnused(t, First(t))
      {
        if slots[i].ref > 0 && slots[i].dev == dev && slots[i].ino == ino {
          slots[i] := slots[i].(ref := slots[i].ref + 1, nlink := 1, parent := dir);
          return Some(i);
        }
        if empty == NENTRY && slots[i].ref == 0 {
          empty := i;
        }
        i := i + 1;
      }
      if empty == NENTRY {
        return None;
      }
      slots[empty] := Slot(1, dev, ino, 1, false, dir);
      return Some(empty);
    }

    /** `fat32_inode_put`: says whether the data of the inode was freed. */
    method PutSlot(i: nat) returns (freed: bool)
      requires i < slots.Length && slots[i].ref > 0
      modifies slots
      ensures freed == LastUnlinked(old(slots[i])) && slots[..] == Put(old(slots[..]), i)
      ensures freed <==> old(slots[i].ref) == 1 && old(slots[i].valid) && old(slots[i].nlink) == 0
      ensures slots[i] == old(slots[i]).(ref := old(slots[i].ref) - 1, valid := old(slots[i].valid) && !freed)
    {
      freed := slots[i].ref == 1 && slots[i].valid && slots[i].nlink == 0;
      if freed {
        slots[i] := slots[i].(valid := false);
      }
      slots[i] := slots[i].(ref := slots[i].ref - 1);
    }

    /** `fat32_inode_lock`. */
    method LockSlot(i: nat)
      requires i < slots.Length
      modifies slots
      ensures slots[..] == Lock(old(slots[..]), i)
    {
      slots[i] := slots[i].(valid := true);
    }

    method DupSlot(i: nat)
      requires i < slots.Length
      modifies slots
      ensures slots[..] == Dup(old(slots[..]), i)
    {
      slots[i] := slots[i].(ref := slots[i].ref + 1);
    }

    /** One turn of the loop, at entry `ip`. */
    method Enter(ip: nat, name: string, stop: bool) returns (done: bool, ok: bool, r: Option<nat>, freed: bool)
      requires slots.Length == NENTRY + 1 && ip <= NENTRY && slots[ip].ref > 0
      modifies slots
      ensures match Turned(tree, old(slots[..]), ip, name, stop)
              case Done(w) => done && w == Outcome(ok, r, slots[..], freed)
              case Next(u, k, f) => !done && r == Some(k) && slots[..] == u && freed == f
    {
      freed := false;
      LockSlot(ip);
      var dev, ino := slots[ip].dev, slots[ip].ino;
      if !tree.isDir(dev, ino) {
        freed := PutSlot(ip);
        return true, true, None, freed;
      }
      if stop {
        return true, true, Some(ip), freed;
      }
      match tree.find(dev, ino, name) {
        case None =>
          freed := PutSlot(ip);
          return true, true, None, freed;
        case Some(found) =>
          var got := Get(dev, found, ip);
          if got == None {
            return true, false, None, freed;
          }
          freed := PutSlot(ip);
          return false, true, got, freed;
      }
    }

    /** `inode_namex` as it runs. */
    method Lookup(path0: string, parent: bool, cwd: nat) returns (ok: bool, r: Option<nat>, freed: bool)
      requires slots.Length == NENTRY + 1 && cwd <= NENTRY
      modifies slots
      ensures Outcome(ok, r, slots[..], freed) == LookedUp(tree, old(slots[..]), path0, parent, cwd)
    {
      var ip: nat, path := Start(path0, cwd, slots[cwd].parent), path0;
      DupSlot(ip);
      freed := false;
      ghost var all := LookedUp(tree, old(slots[..]), path0, parent, cwd);
      while true
        invariant slots.Length == NENTRY + 1 && ip <= NENTRY && slots[ip].ref > 0
        invariant all == AlsoFreed(Walked(tree, slots[..], ip, Elements(path), Tail(path), parent), freed)
        decreases |path|
      {
        var next := Skepelem(path);
        if next == None {
          break;
        }
        var name, rest := next.value.0, next.value.1;
        WalkedStep(tree, slots[..], ip, name, Elements(rest), Tail(rest), parent);
        RestIsEmpty(rest);
        var done, f;
        done, ok, r, f := Enter(ip, name, parent && rest == []);
        freed := freed || f;
        if done {
          return ok, r, freed;
        }
        ip, path := r.value, rest;
      }
      if parent {
        var f := PutSlot(ip);
        return true, None, freed || f;
      }
      return true, Some(ip), freed;
    }
  }

  /** The outcome `w` is that of following `path` from entry `s`: the inode its elements name from
      there; and from a table without duplicates, if the entry is referenced or has links and no
      twin, one without duplicates again, with nothing freed. */
  ghost predicate Follows(tree: Tree, t: seq<Slot>, s: nat, path: string, parent: bool, w: Outcome)
    requires Shape(t) && s <= NENTRY
  {
    && (w.ok ==> Finds(w, t[s].dev, Named(tree, t[s].dev, t[s].ino, Elements(path), Tail(path), parent)))
    && (Unique(t) && StartOk(t, s) ==> !w.freed && Shape(w.table) && Unique(w.table))
  }

  lemma FollowsStart(tree: Tree, t: seq<Slot>, path: string, parent: bool, cwd: nat)
    requires Shape(t) && cwd <= NENTRY
    ensures var w := LookedUp(tree, t, path, parent, cwd);
            Kept(t, w) && Follows(tree, t, Start(path, cwd, t[cwd].parent), path, parent, w)
  {
    var s := Start(path, cwd, t[cwd].parent);
    StartHolds(t, s);
    WalkedKeeps(tree, t, Dup(t, s), s, Elements(path), Tail(path), parent);
    WalkedNames(tree, Dup(t, s), s, Elements(path), Tail(path), parent);
  }

  /** For every path, tree, name matching and table, a lookup leaves every reference count as it was
      but one more on its result, and follows a path that begins with a slash from the root, one
      that begins with a dot from the parent of the working directory, and every other path, the
      empty one too, from the working directory. */
  lemma LookupMeets(tree: Tree, t: seq<Slot>, path: string, parent: bool, cwd: nat)
    requires Shape(t) && cwd <= NENTRY
    ensures Kept(t, LookedUp(tree, t, path, parent, cwd))
    ensures path != [] && path[0] == '/' ==> Follows(tree, t, NENTRY, path, parent, LookedUp(tree, t, path, parent, cwd))
    ensures path != [] && path[0] == '.' ==> Follows(tree, t, t[cwd].parent, path, parent, LookedUp(tree, t, path, parent, cwd))
    ensures path == [] || (path[0] != '/' && path[0] != '.') ==> Follows(tree, t, cwd, path, parent, LookedUp(tree, t, path, parent, cwd))
  {
    FollowsStart(tree, t, path, parent, cwd);
  }

  // ------------------------------------------------- a duplicate that is reached

  /** A path without elements, such as "..", leads to the entry it starts at, and leaves the table
      free of duplicates exactly if that entry was referenced or had no twin. */
  lemma NoElementsUniqueIff(tree: Tree, t: seq<Slot>, path: string, cwd: nat)
    requires Shape(t) && cwd <= NENTRY && Unique(t) && Elements(path) == []
    ensures var w, s := LookedUp(tree, t, path, false, cwd), Start(path, cwd, t[cwd].parent);
            w.r == Some(s) && (Unique(w.table) <==> t[s].ref > 0 || !Twin(t, s))
  {
    DupUniqueIff(t, Start(path, cwd, t[cwd].parent));
  }

  /** What a process may do to the table: look up a path and keep the reference, or give one back. */
  datatype Call = Look(path: string, cwd: nat) | Drop(i: nat)

  ghost predicate Enabled(t: seq<Slot>, c: Call) {
    && Shape(t)
    && match c
       case Look(_, cwd) => cwd <= NENTRY
       case Drop(i) => i <= NENTRY && t[i].ref > 0
  }

  ghost function After(tree: Tree, t: seq<Slot>, c: Call): seq<Slot>
    requires Enabled(t, c)
  {
    match c
    case Look(path, cwd) => LookedUp(tree, t, path, false, cwd).table
    case Drop(i) => Put(t, i)
  }

  /** The table at boot: all entries unused, and the root. */
  ghost function Boot(dev: nat): (t: seq<Slot>)
    ensures Shape(t) && Unique(t) && t[NENTRY] == Slot(0, dev, 0, 1, true, NENTRY)
    ensures forall i :: 0 <= i < NENTRY ==> t[i] == Slot(0, 0, 0, 0, false, 0)
  {
    seq(NENTRY, _ => Slot(0, 0, 0, 0, false, 0)) + [Slot(0, dev, 0, 1, true, NENTRY)]
  }

  /** The root holds "x" and directory "a", which holds directory "b". */
  ghost predicate HasNames(tree: Tree, dev: nat) {
    && tree.isDir(dev, 0) && tree.isDir(dev, 2)
    && tree.find(dev, 0, "x") == Some(1)
    && tree.find(dev, 0, "a") == Some(2)
    && tree.find(dev, 2, "b") == Some(3)
  }

  ghost predicate Slashes(p: string, i: nat, j: nat)
    requires j <= |p|
  {
    forall x :: i <= x < j ==> p[x] == '/'
  }

  ghost predicate NoSlash(p: string, i: nat, j: nat)
    requires j <= |p|
  {
    forall x :: i <= x < j ==> p[x] != '/'
  }

  lemma LeadingIs(p: string, dots: bool, n: nat)
    requires n <= |p| && Slashes(p, 0, n) && (n < |p| ==> p[n] != '/' && p[n] != '.')
    ensures Leading(p, dots) == n
  {
  }

  lemma ElementIs(p: string, n: nat)
    requires n <= |p| && NoSlash(p, 0, n) && (n < |p| ==> p[n] == '/')
    ensures ElementLength(p) == n
  {
  }

  /** An element is the text between slashes, unless it starts with a dot. */
  lemma SkipAt(p: string, i: nat, j: nat, k: nat, name: string, rest: string)
    requires i < j <= k <= |p| && name == p[i..j] && rest == p[k..]
    requires Slashes(p, 0, i) && p[i] != '.' && NoSlash(p, i, j) && Slashes(p, j, k)
    requires j < |p| ==> p[j] == '/'
    requires k < |p| ==> p[k] != '/' && p[k] != '.'
    ensures Skip(p) == Some((name, rest))
  {
    LeadingIs(p, true, i);
    ElementIs(p[i..], j - i);
    RestAt(p, i, j, k);
  }

  lemma RestAt(p: string, i: nat, j: nat, k: nat)
    requires i <= j <= k <= |p| && Slashes(p, j, k) && (k < |p| ==> p[k] != '/' && p[k] != '.')
    ensures ElementAt(p, i, j) == (p[i..j], p[k..])
  {
    LeadingIs(p[j..], false, k - j);
  }

  lemma ElementsOne(p: string, name: string, rest: string)
    requires Skip(p) == Some((name, rest))
    ensures Elements(p) == [name] + Elements(rest)
  {
  }

  /** A path of one element, and one of two. */
  lemma PathOf(x: char, y: char)
    requires x != '/' && x != '.' && y != '/' && y != '.'
    ensures Elements(['/', x]) == [[x]] && Elements(['/', x, '/', y]) == [[x], [y]]
  {
    SkipAt(['/', x], 1, 2, 2, [x], []);
    ElementsOne(['/', x], [x], []);
    SkipAt(['/', x, '/', y], 1, 2, 3, [x], [y]);
    ElementsOne(['/', x, '/', y], [x], [y]);
    SkipAt([y], 0, 1, 1, [y], []);
    ElementsOne([y], [y], []);
    assert Elements([]) == [];
  }

  lemma DotsHaveNone()
    ensures Elements("..") == []
  {
  }

  /** One turn that finds a child of `ip` which no entry stands for: it takes the first unused
      entry. */
  lemma TurnTakes(tree: Tree, t: seq<Slot>, ip: nat, name: string, found: nat, k: nat)
    requires Shape(t) && ip <= NENTRY && t[ip].ref > 0 && tree.isDir(t[ip].dev, t[ip].ino)
    requires tree.find(t[ip].dev, t[ip].ino, name) == Some(found)
    requires forall i :: 0 <= i < NENTRY ==> !Match(t[i], t[ip].dev, found)
    requires k < NENTRY && k != ip && t[k].ref == 0 && forall i :: 0 <= i < k ==> t[i].ref > 0
    ensures Turned(tree, t, ip, name, false) ==
            Next(Put(Lock(t, ip)[k := Slot(1, t[ip].dev, found, 1, false, ip)], ip), k,
                 LastUnlinked(Lock(t, ip)[ip]))
  {
    var u := Lock(t, ip);
    assert forall i :: 0 <= i < NENTRY ==> u[i].ref == t[i].ref && (Match(u[i], t[ip].dev, found) <==> Match(t[i], t[ip].dev, found));
    assert FirstMatch(u, t[ip].dev, found, First(u)) == NENTRY;
    assert FirstUnused(u, First(u)) == k;
  }

  /** No entry stands for inode `ino`, and entry `k` is the first unused one. */
  ghost predicate TakesSlot(t: seq<Slot>, dev: nat, ino: nat, k: nat) {
    && Shape(t) && k < NENTRY && t[k].ref == 0
    && (forall i :: 0 <= i < NENTRY ==> !Match(t[i], dev, ino))
    && (forall i :: 0 <= i < k ==> t[i].ref > 0)
  }

  ghost predicate RootAt(t: seq<Slot>, dev: nat) { Shape(t) && t[NENTRY] == Slot(0, dev, 0, 1, true, NENTRY) }

  /** From the root to one of its names. */
  lemma TurnFromRoot(tree: Tree, t: seq<Slot>, dev: nat, x: string, ino: nat, k: nat)
    requires RootAt(t, dev) && tree.isDir(dev, 0) && tree.find(dev, 0, x) == Some(ino) && TakesSlot(t, dev, ino, k)
    ensures Turned(tree, Dup(t, NENTRY), NENTRY, x, false) == Next(t[k := Slot(1, dev, ino, 1, false, NENTRY)], k, false)
  {
    var u := Dup(t, NENTRY);
    TurnTakes(tree, u, NENTRY, x, ino, k);
    assert Put(Lock(u, NENTRY)[k := Slot(1, dev, ino, 1, false, NENTRY)], NENTRY) == t[k := Slot(1, dev, ino, 1, false, NENTRY)];
  }

  lemma WalkOne(tree: Tree, t: seq<Slot>, dev: nat, x: string, ino: nat, k: nat, tail: string)
    requires RootAt(t, dev) && tree.isDir(dev, 0) && tree.find(dev, 0, x) == Some(ino) && TakesSlot(t, dev, ino, k)
    ensures Walked(tree, Dup(t, NENTRY), NENTRY, [x], tail, false)
         == Outcome(true, Some(k), t[k := Slot(1, dev, ino, 1, false, NENTRY)], false)
  {
    TurnFromRoot(tree, t, dev, x, ino, k);
    WalkedStep(tree, Dup(t, NENTRY), NENTRY, x, [], tail, false);
    assert [x] + [] == [x];
  }

  /** From the root through directory `ino`, which is given back, to `sub` in it. */
  lemma WalkTwo(tree: Tree, t: seq<Slot>, dev: nat, x: string, y: string, ino: nat, sub: nat, k: nat, tail: string)
    requires RootAt(t, dev) && tree.isDir(dev, 0) && tree.find(dev, 0, x) == Some(ino) && TakesSlot(t, dev, ino, k)
    requires tree.isDir(dev, ino) && tree.find(dev, ino, y) == Some(sub)
    requires TakesSlot(t[k := Slot(1, dev, ino, 1, false, NENTRY)], dev, sub, k + 1)
    ensures Walked(tree, Dup(t, NENTRY), NENTRY, [x, y], tail, false) ==
            Outcome(true, Some(k + 1), t[k := Slot(0, dev, ino, 1, true, NENTRY)][k + 1 := Slot(1, dev, sub, 1, false, k)], false)
  {
    TurnFromRoot(tree, t, dev, x, ino, k);
    WalkedStep(tree, Dup(t, NENTRY), NENTRY, x, [y], tail, false);
    var u := t[k := Slot(1, dev, ino, 1, false, NENTRY)];
    TurnTakes(tree, u, k, y, sub, k + 1);
    WalkedStep(tree, u, k, y, [], tail, false);
    assert [x] + [y] == [x, y] && [y] + [] == [y];
    assert Put(Lock(u, k)[k + 1 := Slot(1, dev, sub, 1, false, k)], k)
        == t[k := Slot(0, dev, ino, 1, true, NENTRY)][k + 1 := Slot(1, dev, sub, 1, false, k)];
  }

  ghost predicate Leads(tree: Tree, t: seq<Slot>, c: Call, u: seq<Slot>) { Enabled(t, c) && After(tree, t, c) == u }

  /** An absolute path with elements `es`. */
  lemma LookAbsolute(tree: Tree, t: seq<Slot>, path: string, cwd: nat, es: seq<string>, w: Outcome)
    requires Shape(t) && cwd <= NENTRY && path != [] && path[0] == '/' && Elements(path) == es
    requires Walked(tree, Dup(t, NENTRY), NENTRY, es, Tail(path), false) == w
    ensures Leads(tree, t, Look(path, cwd), w.table)
  {
  }

  /** `path` is absolute, with elements `es`. */
  ghost predicate Absolute(path: string, es: seq<string>) { path != [] && path[0] == '/' && Elements(path) == es }

  lemma LookX(tree: Tree, dev: nat, t: seq<Slot>, u: seq<Slot>, path: string)
    requires Absolute(path, ["x"])
    requires HasNames(tree, dev) && t == Boot(dev) && u == t[0 := Slot(1, dev, 1, 1, false, NENTRY)]
    ensures Leads(tree, t, Look(path, NENTRY), u)
  {
    WalkOne(tree, t, dev, "x", 1, 0, Tail(path));
    LookAbsolute(tree, t, path, NENTRY, ["x"], Outcome(true, Some(0), u, false));
  }

  lemma LookAB(tree: Tree, dev: nat, t: seq<Slot>, u: seq<Slot>, path: string)
    requires Absolute(path, ["a", "b"])
    requires HasNames(tree, dev) && RootAt(t, dev) && t[0] == Slot(1, dev, 1, 1, false, NENTRY)
    requires forall i :: 1 <= i < NENTRY ==> t[i].ref == 0
    requires u == t[1 := Slot(0, dev, 2, 1, true, NENTRY)][2 := Slot(1, dev, 3, 1, false, 1)]
    ensures Leads(tree, t, Look(path, NENTRY), u)
  {
    WalkTwo(tree, t, dev, "a", "b", 2, 3, 1, Tail(path));
    LookAbsolute(tree, t, path, NENTRY, ["a", "b"], Outcome(true, Some(2), u, false));
  }

  lemma LookA(tree: Tree, dev: nat, t: seq<Slot>, u: seq<Slot>, path: string)
    requires Absolute(path, ["a"])
    requires HasNames(tree, dev) && RootAt(t, dev) && t[0].ref == 0 && t[1].ref == 0 && t[2] == Slot(1, dev, 3, 1, false, 1)
    requires forall i :: 3 <= i < NENTRY ==> t[i].ref == 0
    requires u == t[0 := Slot(1, dev, 2, 1, false, NENTRY)]
    ensures Leads(tree, t, Look(path, 2), u)
  {
    WalkOne(tree, t, dev, "a", 2, 0, Tail(path));
    LookAbsolute(tree, t, path, 2, ["a"], Outcome(true, Some(0), u, false));
  }

  lemma LookUp(tree: Tree, dev: nat, t: seq<Slot>, u: seq<Slot>, path: string)
    requires path != [] && path[0] == '.' && Elements(path) == []
    requires Shape(t) && t[0] == Slot(1, dev, 2, 1, false, NENTRY) && t[1] == Slot(0, dev, 2, 1, true, NENTRY)
    requires t[2] == Slot(1, dev, 3, 1, false, 1) && forall i :: 3 <= i < NENTRY ==> t[i].ref == 0
    requires u == Dup(t, 1)
    ensures Leads(tree, t, Look(path, 2), u) && Unique(t) && !Unique(u)
  {
    assert Unique(t);
    assert SameKey(t, 1, 0);
    NoElementsUniqueIff(tree, t, path, 2);
  }

  /** The calls `cs` lead from `t` to `u`. */
  ghost predicate LeadAll(tree: Tree, t: seq<Slot>, cs: seq<Call>, u: seq<Slot>)
    decreases |cs|
  {
    if cs == [] then u == t else Enabled(t, cs[0]) && LeadAll(tree, After(tree, t, cs[0]), cs[1..], u)
  }

  lemma LeadFirst(tree: Tree, t: seq<Slot>, c: Call, u: seq<Slot>, cs: seq<Call>, v: seq<Slot>)
    requires Leads(tree, t, c, u) && LeadAll(tree, u, cs, v)
    ensures LeadAll(tree, t, [c] + cs, v)
  {
    assert ([c] + cs)[1..] == cs;
  }

  /** Paths to "x" and "a" in the root, to "b" in "a", and to the parent directory. */
  datatype Paths = Paths(x: string, ab: string, a: string, up: string)

  ghost predicate PathsOk(p: Paths) {
    && Absolute(p.x, ["x"]) && Absolute(p.ab, ["a", "b"]) && Absolute(p.a, ["a"])
    && p.up != [] && p.up[0] == '.' && Elements(p.up) == []
  }

  lemma FourPaths()
    ensures PathsOk(Paths("/x", "/a/b", "/a", ".."))
  {
    PathOf('x', 'x');
    PathOf('a', 'b');
    DotsHaveNone();
  }

  /** After "/x" and "/a/b": give "/x" back, look up "/a". */
  lemma DropThenA(tree: Tree, dev: nat, p: Paths, t: seq<Slot>, v: seq<Slot>)
    requires HasNames(tree, dev) && RootAt(t, dev) && t[0] == Slot(1, dev, 1, 1, false, NENTRY) && PathsOk(p)
    requires t[1].ref == 0 && t[2] == Slot(1, dev, 3, 1, false, 1) && forall i :: 3 <= i < NENTRY ==> t[i].ref == 0
    requires v == t[0 := Slot(1, dev, 2, 1, false, NENTRY)]
    ensures LeadAll(tree, t, [Drop(0)] + [Look(p.a, 2)], v)
  {
    var u := Put(t, 0);
    assert v == u[0 := Slot(1, dev, 2, 1, false, NENTRY)];
    LookA(tree, dev, u, v, p.a);
    LeadFirst(tree, u, Look(p.a, 2), v, [], v);
    assert [Look(p.a, 2)] + [] == [Look(p.a, 2)];
    LeadFirst(tree, t, Drop(0), u, [Look(p.a, 2)], v);
  }

  lemma ABThenDrop(tree: Tree, dev: nat, p: Paths, t: seq<Slot>, v: seq<Slot>)
    requires HasNames(tree, dev) && RootAt(t, dev) && t[0] == Slot(1, dev, 1, 1, false, NENTRY) && PathsOk(p)
    requires forall i :: 1 <= i < NENTRY ==> t[i].ref == 0
    requires v == t[0 := Slot(1, dev, 2, 1, false, NENTRY)][1 := Slot(0, dev, 2, 1, true, NENTRY)][2 := Slot(1, dev, 3, 1, false, 1)]
    ensures LeadAll(tree, t, [Look(p.ab, NENTRY)] + ([Drop(0)] + [Look(p.a, 2)]), v)
  {
    var u := t[1 := Slot(0, dev, 2, 1, true, NENTRY)][2 := Slot(1, dev, 3, 1, false, 1)];
    assert v == u[0 := Slot(1, dev, 2, 1, false, NENTRY)];
    LookAB(tree, dev, t, u, p.ab);
    DropThenA(tree, dev, p, u, v);
    LeadFirst(tree, t, Look(p.ab, NENTRY), u, [Drop(0)] + [Look(p.a, 2)], v);
  }

  lemma FourCalls(tree: Tree, dev: nat, p: Paths, t0: seq<Slot>, t: seq<Slot>)
    requires HasNames(tree, dev) && t0 == Boot(dev) && PathsOk(p)
    requires t == t0[0 := Slot(1, dev, 2, 1, false, NENTRY)][1 := Slot(0, dev, 2, 1, true, NENTRY)][2 := Slot(1, dev, 3, 1, false, 1)]
    ensures LeadAll(tree, t0, [Look(p.x, NENTRY)] + ([Look(p.ab, NENTRY)] + ([Drop(0)] + [Look(p.a, 2)])), t)
  {
    var t1 := t0[0 := Slot(1, dev, 1, 1, false, NENTRY)];
    LookX(tree, dev, t0, t1, p.x);
    assert t == t1[0 := Slot(1, dev, 2, 1, false, NENTRY)][1 := Slot(0, dev, 2, 1, true, NENTRY)][2 := Slot(1, dev, 3, 1, false, 1)];
    ABThenDrop(tree, dev, p, t1, t);
    LeadFirst(tree, t0, Look(p.x, NENTRY), t1, [Look(p.ab, NENTRY)] + ([Drop(0)] + [Look(p.a, 2)]), t);
  }

  /** From the table at boot: look up "/x", look up "/a/b" and make it the working directory, give
      "/x" back, look up "/a". The parent link of "b" still names the entry that "a" had then, so
      looking up ".." puts inode "a" into the table twice. */
  lemma ParentDuplicates(tree: Tree, dev: nat, p: Paths) returns (t: seq<Slot>, u: seq<Slot>)
    requires HasNames(tree, dev) && PathsOk(p)
    ensures LeadAll(tree, Boot(dev), [Look(p.x, NENTRY)] + ([Look(p.ab, NENTRY)] + ([Drop(0)] + [Look(p.a, 2)])), t)
    ensures Leads(tree, t, Look(p.up, 2), u)
    ensures Shape(t) && Unique(t) && Shape(u) && !Unique(u)
  {
    var t0 := Boot(dev);
    t := t0[0 := Slot(1, dev, 2, 1, false, NENTRY)][1 := Slot(0, dev, 2, 1, true, NENTRY)][2 := Slot(1, dev, 3, 1, false, 1)];
    u := Dup(t, 1);
    FourCalls(tree, dev, p, t0, t);
    LookUp(tree, dev, t, u, p.up);
  }
}
