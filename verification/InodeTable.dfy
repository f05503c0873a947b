/** The in-memory inode table and path lookup (fs/ops.c, fs/fat32_inode.c). Directories are an
    arbitrary tree: which numbers are directories, and what number a name leads to, whatever the
    comparison of names does. */
module InodeTable {
  import opened Wrappers

  const NENTRY: nat := 50

  /** Slots 0 to 49 are the table; the root inode is kept apart, here in slot 50. */
  type Index = i: nat | i <= NENTRY

  /** `parent` is the entry of the directory in which the inode was found; it outlives the
      reference that the lookup had to that entry. */
  datatype Slot = Slot(ref: nat, dev: nat, ino: nat, nlink: nat, valid: bool, parent: Index)

  ghost predicate Shape(t: seq<Slot>) { |t| == NENTRY + 1 }

  /** The number of the first slot, 0; as a literal the verifier would unroll the searches that
      start there. */
  ghost function First(t: seq<Slot>): nat
    requires Shape(t)
    ensures First(t) == 0
  {
    |t| - NENTRY - 1
  }

  ghost predicate SameKey(t: seq<Slot>, i: nat, j: nat)
    requires i < |t| && j < |t|
  {
    t[i].dev == t[j].dev && t[i].ino == t[j].ino
  }

  /** No two referenced entries of the table stand for the same inode. */
  ghost predicate Unique(t: seq<Slot>)
    requires Shape(t)
  {
    forall i, j {:trigger SameKey(t, i, j)} :: 0 <= i < j < NENTRY && t[i].ref > 0 && t[j].ref > 0 ==> !SameKey(t, i, j)
  }

  /** Another referenced entry stands for the inode of entry `i`. */
  ghost predicate Twin(t: seq<Slot>, i: nat)
    requires Shape(t) && i <= NENTRY
  {
    i < NENTRY && exists j :: 0 <= j < NENTRY && j != i && t[j].ref > 0 && (SameKey(t, i, j) || SameKey(t, j, i))
  }

  function Dup(t: seq<Slot>, i: nat): seq<Slot>
    requires i < |t|
  {
    t[i := t[i].(ref := t[i].ref + 1)]
  }

  /** Taking one more reference keeps the table free of duplicates exactly if there was one
      already, or nothing else stands for that inode. A parent link is followed without either
      being sure. */
  lemma DupUniqueIff(t: seq<Slot>, i: nat)
    requires Shape(t) && Unique(t) && i <= NENTRY
    ensures Unique(Dup(t, i)) <==> t[i].ref > 0 || !Twin(t, i)
  {
    var u := Dup(t, i);
    assert forall a, b :: 0 <= a < b < NENTRY ==> (SameKey(u, a, b) <==> SameKey(t, a, b));
    if t[i].ref == 0 && Twin(t, i) {
      var j :| 0 <= j < NENTRY && j != i && t[j].ref > 0 && (SameKey(t, i, j) || SameKey(t, j, i));
      if i < j {
        assert SameKey(u, i, j);
      } else {
        assert SameKey(u, j, i);
      }
    }
  }

  // ---------------------------------------------------------------------- get

  /** `fat32_inode_get` for a directory entry: the entry that stands for the inode, or else the
      first unused one. */
  ghost predicate Match(s: Slot, dev: nat, ino: nat) { s.ref > 0 && s.dev == dev && s.ino == ino }

  ghost function FirstMatch(t: seq<Slot>, dev: nat, ino: nat, i: nat): (k: nat)
    requires Shape(t) && i <= NENTRY
    ensures i <= k <= NENTRY && (k < NENTRY ==> Match(t[k], dev, ino))
    ensures forall j :: i <= j < k ==> !Match(t[j], dev, ino)
    decreases NENTRY - i, |t|
  {
    if i == NENTRY || Match(t[i], dev, ino) then i else FirstMatch(t, dev, ino, i + 1)
  }

  ghost function FirstUnused(t: seq<Slot>, i: nat): (k: nat)
    requires Shape(t) && i <= NENTRY
    ensures i <= k <= NENTRY && (k < NENTRY ==> t[k].ref == 0)
    ensures forall j :: i <= j < k ==> t[j].ref > 0
    decreases NENTRY - i, |t|
  {
    if i == NENTRY || t[i].ref == 0 then i else FirstUnused(t, i + 1)
  }

  ghost function Slotted(t: seq<Slot>, dev: nat, ino: nat): nat
    requires Shape(t)
  {
    var k := FirstMatch(t, dev, ino, First(t));
    if k < NENTRY then k else FirstUnused(t, First(t))
  }

  /** The table after the entry was found or made, for a name in directory `dir`; the caller sets
      its link count to 1 and its parent. */
  ghost function Got(t: seq<Slot>, dev: nat, ino: nat, dir: Index): seq<Slot>
    requires Shape(t) && Slotted(t, dev, ino) < NENTRY
  {
    var k := Slotted(t, dev, ino);
    t[k := if Match(t[k], dev, ino) then t[k].(ref := t[k].ref + 1, nlink := 1, parent := dir)
           else Slot(1, dev, ino, 1, false, dir)]
  }

  /** Getting an inode changes one entry. It stands for that inode, with a link, found in `dir`; it
      has one reference more than the entry that stood for the inode already had, or else it was
      unused and has one reference and contents that are still to be read. */
  lemma GotMeans(t: seq<Slot>, dev: nat, ino: nat, dir: Index)
    requires Shape(t) && Slotted(t, dev, ino) < NENTRY
    ensures var k, u := Slotted(t, dev, ino), Got(t, dev, ino, dir);
      && (forall i :: 0 <= i <= NENTRY && i != k ==> u[i] == t[i])
      && u[k].dev == dev && u[k].ino == ino && u[k].nlink == 1 && u[k].parent == dir
      && (if exists i :: 0 <= i < NENTRY && Match(t[i], dev, ino)
          then Match(t[k], dev, ino) && u[k].ref == t[k].ref + 1 && u[k].valid == t[k].valid
          else t[k].ref == 0 && u[k].ref == 1 && !u[k].valid)
  {
    var k := FirstMatch(t, dev, ino, First(t));
    if i :| 0 <= i < NENTRY && Match(t[i], dev, ino) {
      assert k <= i;
    }
  }

  lemma GotUnique(t: seq<Slot>, dev: nat, ino: nat, dir: Index)
    requires Shape(t) && Unique(t) && Slotted(t, dev, ino) < NENTRY
    ensures Unique(Got(t, dev, ino, dir))
  {
    var u, k := Got(t, dev, ino, dir), Slotted(t, dev, ino);
    forall i, j | 0 <= i < j < NENTRY && u[i].ref > 0 && u[j].ref > 0 ensures !SameKey(u, i, j) {
      if t[i].ref > 0 && t[j].ref > 0 {
        assert !SameKey(t, i, j);
      } else {
        assert FirstMatch(t, dev, ino, First(t)) == NENTRY;
        assert !Match(t[i], dev, ino) && !Match(t[j], dev, ino);
      }
    }
  }

  // ---------------------------------------------------------------------- put

  /** The last reference to an inode without links: its data would be freed. */
  predicate LastUnlinked(s: Slot) { s.ref == 1 && s.valid && s.nlink == 0 }

  function Put(t: seq<Slot>, i: nat): seq<Slot>
    requires i < |t| && t[i].ref > 0
  {
    t[i := t[i].(ref := t[i].ref - 1, valid := t[i].valid && !LastUnlinked(t[i]))]
  }

  lemma PutUnique(t: seq<Slot>, i: nat)
    requires Shape(t) && Unique(t) && i <= NENTRY && t[i].ref > 0
    ensures Unique(Put(t, i))
  {
    var u := Put(t, i);
    forall a, b | 0 <= a < b < NENTRY && u[a].ref > 0 && u[b].ref > 0 ensures !SameKey(u, a, b) {
      assert !SameKey(t, a, b);
    }
  }
}
