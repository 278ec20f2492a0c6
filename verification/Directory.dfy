/** A directory's bytes, as 16-byte entries, refine a map from names of at most DIRSIZ bytes to inode
    numbers.  A C string is the sequence of bytes before its NUL. */
module Directory {
  import FsLayout
  import FsSpec

  const DIRSIZ := 14
  const ENTRY := 16

  type Byte = FsLayout.Byte

  type Name = seq<Byte>

  /** What of a name counts: its first DIRSIZ bytes. */
  function Cut(s: Name): Name {
    if |s| <= DIRSIZ then s else s[..DIRSIZ]
  }

  ghost predicate NoZero(s: seq<Byte>) {
    forall i :: 0 <= i < |s| ==> s[i] != 0
  }

  /** The name in a field of DIRSIZ bytes: what comes before the first NUL, if there is one. */
  function Trim(f: seq<Byte>): (n: Name)
    ensures |n| <= |f| && NoZero(n) && n == f[..|n|] && (|n| < |f| ==> f[|n|] == 0)
  {
    if f == [] || f[0] == 0 then [] else [f[0]] + Trim(f[1..])
  }

  lemma TrimIs(f: seq<Byte>, n: nat)
    requires n <= |f| && NoZero(f[..n]) && (n < |f| ==> f[n] == 0)
    ensures Trim(f) == f[..n]
  {
    assert forall k :: 0 <= k < |Trim(f)| ==> Trim(f)[k] == f[k];
    assert forall k :: 0 <= k < n ==> f[..n][k] == f[k];
  }

  /** strncmp(s, f, DIRSIZ) == 0, for a string s and a name field f. */
  method SameName(s: Name, f: seq<Byte>) returns (r: bool)
    requires NoZero(s) && |f| == DIRSIZ
    ensures r <==> Cut(s) == Trim(f)
  {
    var i := 0;
    while i < DIRSIZ && i < |s| && s[i] == f[i]
      invariant 0 <= i <= DIRSIZ && i <= |s| && s[..i] == f[..i]
    {
      i := i + 1;
    }
    if i == DIRSIZ {
      TrimIs(f, DIRSIZ);
      return true;
    }
    r := (if i < |s| then s[i] else 0) == f[i];
    if r {
      TrimIs(f, i);
    } else {
      Differs(s, f, i);
    }
  }

  lemma Differs(s: Name, f: seq<Byte>, i: nat)
    requires NoZero(s) && i < DIRSIZ == |f| && i <= |s| && s[..i] == f[..i] && (if i < |s| then s[i] else 0) != f[i]
    ensures Cut(s) != Trim(f)
  {
    hide Trim;
    var t := Trim(f);
    if i < |s| {
      assert Cut(s)[i] == s[i];
      if i < |t| {
        assert t[i] == f[..|t|][i] == f[i];
      }
    } else {
      assert |t| != i;
    }
  }

  /** strncpy(field, name, DIRSIZ): the name, cut, and NULs up to the end of the field. */
  method CopyName(s: Name) returns (f: seq<Byte>)
    requires NoZero(s)
    ensures |f| == DIRSIZ && Trim(f) == Cut(s)
  {
    f := [];
    while |f| < DIRSIZ && |f| < |s|
      invariant |f| <= DIRSIZ && |f| <= |s| && f == s[..|f|]
    {
      f := f + [s[|f|]];
    }
    ghost var n := |f|;
    while |f| < DIRSIZ
      invariant n <= |f| <= DIRSIZ && f[..n] == s[..n] && forall i :: n <= i < |f| ==> f[i] == 0
    {
      f := f + [0];
    }
    TrimIs(f, n);
  }

  // ----- entries

  function Slots(c: seq<Byte>): nat {
    |c| / ENTRY
  }

  function EntryAt(c: seq<Byte>, k: nat): (e: seq<Byte>)
    requires k < Slots(c)
    ensures |e| == ENTRY
  {
    c[ENTRY * k..ENTRY * k + ENTRY]
  }

  function InumOf(e: seq<Byte>): nat
    requires |e| == ENTRY
  {
    var low: int, high: int := e[0], e[1];
    low + 256 * high
  }

  function NameOf(e: seq<Byte>): Name
    requires |e| == ENTRY
  {
    Trim(e[2..])
  }

  function Entry(inum: nat, field: seq<Byte>): seq<Byte>
    requires inum < 65536
  {
    [inum % 256, inum / 256] + field
  }

  lemma EntryRead(inum: nat, field: seq<Byte>)
    requires inum < 65536 && |field| == DIRSIZ
    ensures InumOf(Entry(inum, field)) == inum && NameOf(Entry(inum, field)) == Trim(field)
  {
    assert Entry(inum, field)[2..] == field;
  }

  /** writei of entry k, which may be the next one. */
  function PutEntry(c: seq<Byte>, k: nat, e: seq<Byte>): seq<Byte>
    requires k <= Slots(c) && |c| % ENTRY == 0 && |e| == ENTRY
  {
    if k < Slots(c) then c[..ENTRY * k] + e + c[ENTRY * k + ENTRY..] else c + e
  }

  /** It is what a successful writei at that offset does to the file's bytes. */
  lemma PutIsOverwrite(c: seq<Byte>, k: nat, e: seq<Byte>)
    requires k <= Slots(c) && |c| % ENTRY == 0 && |e| == ENTRY
    ensures ENTRY * k <= |c| && PutEntry(c, k, e) == FsSpec.Overwrite(c, ENTRY * k, e)
  {
  }

  lemma EntryPut(c: seq<Byte>, k: nat, e: seq<Byte>, j: nat)
    requires k <= Slots(c) && |c| % ENTRY == 0 && |e| == ENTRY && j < Slots(PutEntry(c, k, e))
    ensures Slots(PutEntry(c, k, e)) == (if k == Slots(c) then k + 1 else Slots(c)) && |PutEntry(c, k, e)| % ENTRY == 0
    ensures EntryAt(PutEntry(c, k, e), j) == if j == k then e else EntryAt(c, j)
  {
    hide PutEntry;
    var c' := PutEntry(c, k, e);
    PutLength(c, k, e);
    var was := if j == k then e else EntryAt(c, j);
    forall x | 0 <= x < ENTRY
      ensures EntryAt(c', j)[x] == was[x]
    {
      PutByte(c, k, e, ENTRY * j + x);
    }
  }

  lemma PutLength(c: seq<Byte>, k: nat, e: seq<Byte>)
    requires k <= Slots(c) && |c| % ENTRY == 0 && |e| == ENTRY
    ensures |c| == ENTRY * Slots(c)
    ensures |PutEntry(c, k, e)| == if k == Slots(c) then |c| + ENTRY else |c|
    ensures Slots(PutEntry(c, k, e)) == (if k == Slots(c) then k + 1 else Slots(c)) && |PutEntry(c, k, e)| % ENTRY == 0
  {
  }

  lemma PutByte(c: seq<Byte>, k: nat, e: seq<Byte>, i: nat)
    requires k <= Slots(c) && |c| % ENTRY == 0 && |e| == ENTRY && i < |PutEntry(c, k, e)|
    ensures ENTRY * k <= i < ENTRY * k + ENTRY || i < |c|
    ensures PutEntry(c, k, e)[i] == if ENTRY * k <= i < ENTRY * k + ENTRY then e[i - ENTRY * k] else c[i]
  {
  }

  /** Entry k is in use, for inode number i under name n. */
  ghost predicate Holds(c: seq<Byte>, k: nat, n: Name, i: nat) {
    k < Slots(c) && i != 0 && InumOf(EntryAt(c, k)) == i && NameOf(EntryAt(c, k)) == n
  }

  /** The entries in use have distinct names and are what the table says. */
  ghost predicate Represents(c: seq<Byte>, table: map<Name, nat>) {
    && |c| % ENTRY == 0
    && (forall k, n, i :: Holds(c, k, n, i) ==> n in table && table[n] == i)
    && (forall n :: n in table ==> exists k :: Holds(c, k, n, table[n]))
    && (forall j, k, n, i, i' :: Holds(c, j, n, i) && Holds(c, k, n, i') ==> j == k)
  }

  /** A new entry in an unused slot. */
  lemma AddEntry(c: seq<Byte>, table: map<Name, nat>, k: nat, e: seq<Byte>)
    requires Represents(c, table) && k <= Slots(c) && (k < Slots(c) ==> InumOf(EntryAt(c, k)) == 0)
    requires |e| == ENTRY && InumOf(e) != 0 && NameOf(e) !in table
    ensures Represents(PutEntry(c, k, e), table[NameOf(e) := InumOf(e)])
  {
    var c', table' := PutEntry(c, k, e), table[NameOf(e) := InumOf(e)];
    PutHolds(c, k, e);
    forall n | n in table'
      ensures exists j :: Holds(c', j, n, table'[n])
    {
      if n == NameOf(e) {
        assert Holds(c', k, n, table'[n]);
      } else {
        var j :| Holds(c, j, n, table[n]);
        assert Holds(c', j, n, table'[n]);
      }
    }
  }

  /** An entry that is overwritten with zeroes. */
  lemma EraseEntry(c: seq<Byte>, table: map<Name, nat>, k: nat, n: Name, e: seq<Byte>)
    requires Represents(c, table) && n in table && Holds(c, k, n, table[n]) && |e| == ENTRY && InumOf(e) == 0
    ensures Represents(PutEntry(c, k, e), table - {n})
  {
    var c', table' := PutEntry(c, k, e), table - {n};
    PutHolds(c, k, e);
    forall m | m in table'
      ensures exists j :: Holds(c', j, m, table'[m])
    {
      var j :| Holds(c, j, m, table[m]);
      assert Holds(c', j, m, table'[m]);
    }
  }

  lemma PutHolds(c: seq<Byte>, k: nat, e: seq<Byte>)
    requires |c| % ENTRY == 0 && k <= Slots(c) && |e| == ENTRY
    ensures |PutEntry(c, k, e)| % ENTRY == 0 && k < Slots(PutEntry(c, k, e))
    ensures forall j, n, i :: Holds(PutEntry(c, k, e), j, n, i) <==> if j == k then i != 0 && InumOf(e) == i && NameOf(e) == n else Holds(c, j, n, i)
  {
    var c' := PutEntry(c, k, e);
    EntryPut(c, k, e, k);
    forall j: nat, n: Name, i: nat
      ensures Holds(c', j, n, i) <==> if j == k then i != 0 && InumOf(e) == i && NameOf(e) == n else Holds(c, j, n, i)
    {
      if j < Slots(c') {
        EntryPut(c, k, e, j);
      }
    }
  }

  const DOT: Name := [46]
  const DOTDOT: Name := [46, 46]

  class Dir {
    var content: seq<Byte>
    ghost var table: map<Name, nat>

    ghost predicate Valid()
      reads this
    {
      Represents(content, table)
    }

    constructor ()
      ensures Valid() && content == [] && table == map[]
    {
      content, table := [], map[];
    }

    /** dirlookup: the inode number the table gives, or 0; and the entry it stands in. */
    method Dirlookup(name: Name) returns (inum: nat, k: nat)
      requires Valid() && NoZero(name)
      ensures inum == if Cut(name) in table then table[Cut(name)] else 0
      ensures inum != 0 ==> Holds(content, k, Cut(name), inum)
    {
      var off := 0;
      k := 0;
      while off < |content|
        invariant off == ENTRY * k <= |content|
        invariant forall j, i :: 0 <= j < k ==> !Holds(content, j, Cut(name), i)
        decreases |content| - off
      {
        var de := content[off..off + ENTRY];
        assert de == EntryAt(content, k);
        if InumOf(de) != 0 {
          var same := SameName(name, de[2..]);
          if same {
            assert Holds(content, k, Cut(name), InumOf(de));
            return InumOf(de), k;
          }
        }
        off, k := off + ENTRY, k + 1;
      }
      inum := 0;
    }

    /** dirlink's search for an entry: the first unused one, or the next. */
    method FindUnused() returns (k: nat)
      requires Valid()
      ensures FirstUnused(content, k)
    {
      var off := 0;
      k := 0;
      while off < |content|
        invariant off == ENTRY * k <= |content|
        invariant forall j :: 0 <= j < k ==> InumOf(EntryAt(content, j)) != 0
        decreases |content| - off
      {
        var de := content[off..off + ENTRY];
        assert de == EntryAt(content, k);
        if InumOf(de) == 0 {
          break;
        }
        off, k := off + ENTRY, k + 1;
      }
    }

    /** dirlink; ok says whether writei can extend or write the directory.  The name must be new, and
        is the only change; it goes into the first unused entry. */
    method Dirlink(name: Name, inum: nat, ok: bool) returns (r: int, ghost k: nat)
      requires Valid() && NoZero(name) && 0 < inum < 65536
      modifies this
      ensures Valid() && (r == 0 <==> ok && Cut(name) !in old(table)) && (r == 0 || r == -1)
      ensures r == 0 ==> table == old(table)[Cut(name) := inum] && Placed(old(content), content, k, Cut(name), inum)
      ensures r != 0 ==> content == old(content) && table == old(table)
    {
      hide Represents;
      var ino, at := Dirlookup(name);
      InumsPositive(content, table);
      if ino != 0 {
        return -1, 0;
      }
      var slot := FindUnused();
      var field := CopyName(name);
      if !ok {
        return -1, 0;
      }
      EntryRead(inum, field);
      AddEntry(content, table, slot, Entry(inum, field));
      PutHolds(content, slot, Entry(inum, field));
      content := PutEntry(content, slot, Entry(inum, field));
      table := table[Cut(name) := inum];
      r, k := 0, slot;
    }

    /** create's two calls for a new directory. */
    method MakeDots(self: nat, up: nat, ok: bool, ok': bool) returns (r: int)
      requires Valid() && content == [] && 0 < self < 65536 && 0 < up < 65536
      modifies this
      ensures Valid() && (r == 0 <==> ok && ok')
      ensures r == 0 ==> Dotted(content, table) && table == map[DOT := self, DOTDOT := up]
    {
      hide Represents, Placed;
      EmptyTable(content, table);
      ghost var k, k';
      r, k := Dirlink(DOT, self, ok);
      if r == 0 {
        ghost var c := content;
        r, k' := Dirlink(DOTDOT, up, ok');
        if r == 0 {
          TwoEntries(c, k, DOT, self, content, k', DOTDOT, up);
        }
      }
    }

    /** The memset and writei of sys_unlink, at the entry dirlookup found. */
    method Erase(k: nat, ghost name: Name)
      requires Valid() && name in table && Holds(content, k, name, table[name])
      modifies this
      ensures Valid() && table == old(table) - {name} && |content| == |old(content)|
    {
      var de := Entry(0, seq(DIRSIZ, _ => 0));
      EntryRead(0, seq(DIRSIZ, _ => 0));
      EraseEntry(content, table, k, name, de);
      content := PutEntry(content, k, de);
      table := table - {name};
    }

    /** isdirempty, in a directory whose first two entries are "." and "..". */
    method IsDirEmpty() returns (r: bool)
      requires Valid() && Dotted(content, table)
      ensures r <==> table.Keys == {DOT, DOTDOT}
    {
      hide Represents, Dotted, InumOf;
      OtherSlots(content, table);
      WholeEntries(content, table);
      var off, k := 2 * ENTRY, 2;
      while off < |content|
        invariant off == ENTRY * k && 2 <= k && off <= |content|
        invariant forall j :: 2 <= j < k ==> InumOf(EntryAt(content, j)) == 0
        decreases |content| - off
      {
        var de := content[off..off + ENTRY];
        assert de == EntryAt(content, k);
        if InumOf(de) != 0 {
          return false;
        }
        off, k := off + ENTRY, k + 1;
      }
      r := true;
    }
  }

  ghost predicate FirstUnused(c: seq<Byte>, k: nat) {
    && |c| % ENTRY == 0 && k <= Slots(c) && (k < Slots(c) ==> InumOf(EntryAt(c, k)) == 0)
    && forall j :: 0 <= j < k ==> InumOf(EntryAt(c, j)) != 0
  }

  /** c' is c with one more entry, in its first unused slot. */
  ghost predicate Placed(c: seq<Byte>, c': seq<Byte>, k: nat, n: Name, i: nat) {
    && FirstUnused(c, k) && Holds(c', k, n, i)
    && forall j, m, i' :: j != k ==> (Holds(c, j, m, i') <==> Holds(c', j, m, i'))
  }

  lemma EmptyTable(c: seq<Byte>, table: map<Name, nat>)
    requires Represents(c, table) && c == []
    ensures table == map[]
  {
    assert table.Keys == {};
  }

  lemma TwoEntries(c: seq<Byte>, k: nat, n: Name, i: nat, c': seq<Byte>, k': nat, n': Name, i': nat)
    requires Placed([], c, k, n, i) && Placed(c, c', k', n', i')
    ensures Holds(c', 0, n, i) && Holds(c', 1, n', i')
  {
    assert Holds(c, 0, n, i);
    if k' > 1 {
      var m, j := NameOf(EntryAt(c, 1)), InumOf(EntryAt(c, 1));
      assert !Holds([], 1, m, j);
      assert Holds(c, 1, m, j);
    }
  }

  /** dirlink keeps "." and ".." in the first two entries. */
  lemma PlacedDotted(c: seq<Byte>, table: map<Name, nat>, c': seq<Byte>, k: nat, n: Name, i: nat)
    requires Represents(c, table) && Dotted(c, table) && n !in table && Placed(c, c', k, n, i)
    ensures Dotted(c', table[n := i])
  {
    assert Holds(c, 0, DOT, table[DOT]) && Holds(c, 1, DOTDOT, table[DOTDOT]);
  }

  lemma InumsPositive(c: seq<Byte>, table: map<Name, nat>)
    requires Represents(c, table)
    ensures forall n :: n in table ==> table[n] != 0
  {
  }

  ghost predicate Dotted(c: seq<Byte>, table: map<Name, nat>) {
    DOT in table && DOTDOT in table && Holds(c, 0, DOT, table[DOT]) && Holds(c, 1, DOTDOT, table[DOTDOT])
  }

  lemma WholeEntries(c: seq<Byte>, table: map<Name, nat>)
    requires Represents(c, table)
    ensures |c| % ENTRY == 0 && |c| == ENTRY * Slots(c)
    ensures Dotted(c, table) ==> Slots(c) >= 2
  {
  }

  /** Other names are in the entries from the third on. */
  lemma OtherSlots(c: seq<Byte>, table: map<Name, nat>)
    requires Represents(c, table) && Dotted(c, table)
    ensures table.Keys == {DOT, DOTDOT} <==> forall k :: 2 <= k < Slots(c) ==> InumOf(EntryAt(c, k)) == 0
  {
    hide InumOf, NameOf, EntryAt;
    if table.Keys == {DOT, DOTDOT} {
      forall k | 2 <= k < Slots(c)
        ensures InumOf(EntryAt(c, k)) == 0
      {
        NoOther(c, table, k);
      }
    } else {
      var n :| n in table && n != DOT && n != DOTDOT;
      var k :| Holds(c, k, n, table[n]);
      assert k >= 2;
    }
  }

  lemma NoOther(c: seq<Byte>, table: map<Name, nat>, k: nat)
    requires Represents(c, table) && Dotted(c, table) && 2 <= k < Slots(c) && table.Keys == {DOT, DOTDOT}
    ensures InumOf(EntryAt(c, k)) == 0
  {
    var n, i := NameOf(EntryAt(c, k)), InumOf(EntryAt(c, k));
    assert i == 0 || Holds(c, k, n, i);
  }
}
