/** Link counts over create, link, unlink and the last iput: between system calls nlink is the number
    of entries that name an inode, not counting "." and counting ".." only in linked directories. */
module Links {
  import opened Basics
  import opened Directory

  const ROOT := 1

  /** An inode: a directory is its ".." and its other entries. */
  datatype Node = Free | File(nlink: nat) | Folder(nlink: nat, up: nat, names: map<Name, nat>)

  type Tree = map<nat, Node>

  function Nlink(x: Node): nat {
    if x.Free? then 0 else x.nlink
  }

  /** Entry n of directory d counts as a link to i. */
  predicate RefAt(s: Tree, d: nat, n: Name, i: nat) {
    d in s && s[d].Folder? &&
    if n == DOTDOT then s[d].nlink > 0 && s[d].up == i else n in s[d].names && s[d].names[n] == i
  }

  ghost function Refs(s: Tree, i: nat): set<(nat, Name)> {
    (set d, n | d in s && s[d].Folder? && n in s[d].names && RefAt(s, d, n, i) :: (d, n))
    + (set d | d in s && RefAt(s, d, DOTDOT, i) :: (d, DOTDOT))
  }

  lemma InRefs(s: Tree, i: nat, d: nat, n: Name)
    ensures (d, n) in Refs(s, i) <==> RefAt(s, d, n, i)
  {
  }

  // ----- the invariant

  /** "." and ".." are not among the other names; these and ".." lead to inodes. */
  ghost predicate NamesOk(s: Tree) {
    && ROOT in s && s[ROOT].Folder? && s[ROOT].up == ROOT && s[ROOT].nlink > 0
    && (forall d, n :: d in s && s[d].Folder? && n in s[d].names ==> n != DOT && n != DOTDOT && s[d].names[n] in s)
    && forall d :: d in s && s[d].Folder? ==> s[d].up in s
  }

  ghost predicate Counted(s: Tree) {
    forall i :: i in s ==> Nlink(s[i]) == |Refs(s, i)|
  }

  /** A directory without links is empty. */
  ghost predicate DeadEmpty(s: Tree) {
    forall d :: d in s && s[d].Folder? && s[d].nlink == 0 ==> s[d].names == map[]
  }

  /** A directory has one name at most, in the directory its ".." leads to. */
  ghost predicate NamedOnce(s: Tree) {
    && (forall d, n, i :: n != DOTDOT && RefAt(s, d, n, i) && i in s && s[i].Folder? ==> i != ROOT && s[i].up == d)
    && (forall d, n, m, i :: n != DOTDOT && m != DOTDOT && RefAt(s, d, n, i) && RefAt(s, d, m, i) && i in s && s[i].Folder? ==> n == m)
  }

  /** A linked directory other than the root has one. */
  ghost predicate Named(s: Tree) {
    forall i :: i in s && s[i].Folder? && s[i].nlink > 0 && i != ROOT ==> exists n :: n != DOTDOT && RefAt(s, s[i].up, n, i)
  }

  ghost predicate OneName(s: Tree) {
    NamedOnce(s) && Named(s)
  }

  ghost predicate Ok(s: Tree) {
    NamesOk(s) && Counted(s) && DeadEmpty(s) && OneName(s)
  }

  lemma OkCounted(s: Tree)
    requires Ok(s)
    ensures Counted(s)
  {
  }

  // ----- counting

  lemma RefsSame(s: Tree, s': Tree, i: nat)
    requires forall d, n :: RefAt(s', d, n, i) <==> RefAt(s, d, n, i)
    ensures Refs(s', i) == Refs(s, i)
  {
    forall x | x in Refs(s, i) + Refs(s', i)
      ensures x in Refs(s, i) <==> x in Refs(s', i)
    {
      InRefs(s, i, x.0, x.1);
      InRefs(s', i, x.0, x.1);
    }
  }

  lemma RefsAdd(s: Tree, s': Tree, i: nat, d: nat, n: Name)
    requires !RefAt(s, d, n, i) && forall e, m :: RefAt(s', e, m, i) <==> RefAt(s, e, m, i) || (e == d && m == n)
    ensures |Refs(s', i)| == |Refs(s, i)| + 1
  {
    var x := (d, n);
    InRefs(s, i, d, n);
    forall y
      ensures y in Refs(s', i) <==> y in Refs(s, i) || y == x
    {
      InRefs(s, i, y.0, y.1);
      InRefs(s', i, y.0, y.1);
    }
    assert Refs(s', i) == Refs(s, i) + {x};
  }

  /** Whatever is named has a link: the panic of sys_unlink cannot happen. */
  lemma Linked(s: Tree, d: nat, n: Name, i: nat)
    requires Counted(s) && RefAt(s, d, n, i) && i in s
    ensures Nlink(s[i]) >= 1
  {
    InRefs(s, i, d, n);
  }

  // ----- new names

  /** n can be a new entry of directory d. */
  predicate Fresh(s: Tree, d: nat, n: Name) {
    d in s && s[d].Folder? && n !in s[d].names && n != DOT && n != DOTDOT
  }

  function AddName(s: Tree, d: nat, n: Name, i: nat): Tree
    requires Fresh(s, d, n)
  {
    s[d := s[d].(names := s[d].names[n := i])]
  }

  /** sys_link, and create of a file: i gets a link and the name leads to it. */
  function AddFile(s: Tree, d: nat, n: Name, i: nat): Tree
    requires Fresh(s, d, n) && i in s && !s[i].Folder?
  {
    AddName(s[i := File(Nlink(s[i]) + 1)], d, n, i)
  }

  /** mkdir: besides, the new directory's ".." is a link to d. */
  function AddFolder(s: Tree, d: nat, n: Name, i: nat): Tree
    requires Fresh(s, d, n) && i in s && s[i].Free?
  {
    AddName(s[i := Folder(1, d, map[])][d := s[d].(nlink := s[d].nlink + 1)], d, n, i)
  }

  function Added(s: Tree, d: nat, n: Name, kind: Kind, i: nat): Tree
    requires Fresh(s, d, n) && i in s && s[i].Free?
  {
    if kind.KDir? then AddFolder(s, d, n, i) else AddFile(s, d, n, i)
  }

  lemma AddFileRefs(s: Tree, d: nat, n: Name, i: nat, e: nat, m: Name, j: nat)
    requires Fresh(s, d, n) && i in s && !s[i].Folder?
    ensures RefAt(AddFile(s, d, n, i), e, m, j) <==> RefAt(s, e, m, j) || (j == i && e == d && m == n)
  {
  }

  lemma AddFileCounted(s: Tree, d: nat, n: Name, i: nat)
    requires Counted(s) && Fresh(s, d, n) && i in s && !s[i].Folder?
    ensures Counted(AddFile(s, d, n, i))
  {
    hide Refs;
    var s' := AddFile(s, d, n, i);
    forall j | j in s'
      ensures Nlink(s'[j]) == |Refs(s', j)|
    {
      forall e, m
        ensures RefAt(s', e, m, j) <==> RefAt(s, e, m, j) || (j == i && e == d && m == n)
      {
        AddFileRefs(s, d, n, i, e, m, j);
      }
      if j == i {
        RefsAdd(s, s', i, d, n);
      } else {
        RefsSame(s, s', j);
      }
    }
  }

  lemma AddFileOneName(s: Tree, d: nat, n: Name, i: nat)
    requires NamesOk(s) && OneName(s) && Fresh(s, d, n) && i in s && !s[i].Folder?
    ensures OneName(AddFile(s, d, n, i))
  {
    var s' := AddFile(s, d, n, i);
    forall e, m, j
      ensures RefAt(s', e, m, j) <==> RefAt(s, e, m, j) || (j == i && e == d && m == n)
    {
      AddFileRefs(s, d, n, i, e, m, j);
    }
    forall j | j in s' && s'[j].Folder? && s'[j].nlink > 0 && j != ROOT
      ensures exists m :: m != DOTDOT && RefAt(s', s'[j].up, m, j)
    {
      var m :| m != DOTDOT && RefAt(s, s[j].up, m, j);
      assert RefAt(s', s'[j].up, m, j);
    }
  }

  /** A new name for a file keeps the invariant exactly if the directory is itself linked.  The
      counts are right either way, but in an unlinked directory only until its last iput. */
  lemma AddFileOk(s: Tree, d: nat, n: Name, i: nat)
    requires Ok(s) && Fresh(s, d, n) && i in s && !s[i].Folder?
    ensures Ok(AddFile(s, d, n, i)) <==> s[d].nlink > 0
    ensures Counted(AddFile(s, d, n, i))
    ensures s[d].nlink == 0 ==> !Counted(Put(AddFile(s, d, n, i), d))
  {
    hide Counted, NamedOnce, Named;
    var s' := AddFile(s, d, n, i);
    AddFileCounted(s, d, n, i);
    AddFileOneName(s, d, n, i);
    assert n in s'[d].names;
    if s[d].nlink == 0 {
      PutCounted(s', d);
    }
  }

  /** A free inode is named nowhere. */
  lemma Nameless(s: Tree, i: nat, d: nat, n: Name)
    requires Counted(s) && i in s && Nlink(s[i]) == 0
    ensures !RefAt(s, d, n, i)
  {
    InRefs(s, i, d, n);
    assert |Refs(s, i)| == 0;
  }

  lemma AddFolderRefs(s: Tree, d: nat, n: Name, i: nat, e: nat, m: Name, j: nat)
    requires Fresh(s, d, n) && i in s && s[i].Free? && s[d].nlink > 0
    ensures RefAt(AddFolder(s, d, n, i), e, m, j) <==> RefAt(s, e, m, j) || (j == i && e == d && m == n) || (j == d && e == i && m == DOTDOT)
  {
  }

  lemma AddFolderCounted(s: Tree, d: nat, n: Name, i: nat)
    requires Counted(s) && Fresh(s, d, n) && i in s && s[i].Free? && s[d].nlink > 0
    ensures Counted(AddFolder(s, d, n, i))
  {
    hide Refs;
    var s' := AddFolder(s, d, n, i);
    forall j | j in s'
      ensures Nlink(s'[j]) == |Refs(s', j)|
    {
      forall e, m
        ensures RefAt(s', e, m, j) <==> RefAt(s, e, m, j) || (j == i && e == d && m == n) || (j == d && e == i && m == DOTDOT)
      {
        AddFolderRefs(s, d, n, i, e, m, j);
      }
      if j == i {
        RefsAdd(s, s', i, d, n);
      } else if j == d {
        RefsAdd(s, s', d, i, DOTDOT);
      } else {
        RefsSame(s, s', j);
      }
    }
  }

  lemma AddFolderOnce(s: Tree, d: nat, n: Name, i: nat)
    requires NamesOk(s) && Counted(s) && NamedOnce(s) && Fresh(s, d, n) && i in s && s[i].Free? && s[d].nlink > 0
    ensures NamedOnce(AddFolder(s, d, n, i))
  {
    hide Counted, Refs;
    var s' := AddFolder(s, d, n, i);
    forall e, m, j
      ensures RefAt(s', e, m, j) <==> RefAt(s, e, m, j) || (j == i && e == d && m == n) || (j == d && e == i && m == DOTDOT)
      ensures !RefAt(s, e, m, i)
    {
      AddFolderRefs(s, d, n, i, e, m, j);
      Nameless(s, i, e, m);
    }
  }

  lemma AddFolderNamed(s: Tree, d: nat, n: Name, i: nat)
    requires Named(s) && Fresh(s, d, n) && i in s && s[i].Free? && s[d].nlink > 0
    ensures Named(AddFolder(s, d, n, i))
  {
    var s' := AddFolder(s, d, n, i);
    forall j | j in s' && s'[j].Folder? && s'[j].nlink > 0 && j != ROOT
      ensures exists m :: m != DOTDOT && RefAt(s', s'[j].up, m, j)
    {
      if j == i {
        assert RefAt(s', d, n, i);
      } else {
        var m :| m != DOTDOT && RefAt(s, s[j].up, m, j);
        assert RefAt(s', s'[j].up, m, j);
      }
    }
  }

  /** In an unlinked directory, mkdir brings the directory's own ".." back to life: the inode it
      leads to gets an entry it has no link for. */
  lemma AddFolderBreaks(s: Tree, d: nat, n: Name, i: nat)
    requires NamesOk(s) && Counted(s) && Fresh(s, d, n) && i in s && s[i].Free? && s[d].nlink == 0
    ensures !Counted(AddFolder(s, d, n, i))
  {
    hide Refs, RefAt, NamesOk;
    var s', u := AddFolder(s, d, n, i), s[d].up;
    UpLeads(s, d);
    AddFolderDead(s, d, n, i);
    InRefs(s', u, d, DOTDOT);
    if u == d {
      InRefs(s', d, i, DOTDOT);
      Two(Refs(s', d), (d, DOTDOT), (i, DOTDOT));
    } else if u == i {
      InRefs(s', i, d, n);
      Two(Refs(s', i), (d, DOTDOT), (d, n));
    } else {
      forall x | x in Refs(s, u)
        ensures x in Refs(s', u) && x != (d, DOTDOT)
      {
        InRefs(s, u, x.0, x.1);
        InRefs(s', u, x.0, x.1);
        AddFolderKeeps(s, d, n, i, x.0, x.1, u);
      }
      Smaller(Refs(s, u), Refs(s', u), (d, DOTDOT));
      assert s'[u] == s[u];
    }
  }

  lemma UpLeads(s: Tree, d: nat)
    requires NamesOk(s) && d in s && s[d].Folder?
    ensures s[d].up in s
  {
  }

  lemma AddFolderDead(s: Tree, d: nat, n: Name, i: nat)
    requires Fresh(s, d, n) && i in s && s[i].Free? && s[d].nlink == 0
    ensures var s' := AddFolder(s, d, n, i);
            && RefAt(s', d, DOTDOT, s[d].up) && RefAt(s', d, n, i) && RefAt(s', i, DOTDOT, d)
            && s'[d].nlink == 1 && s'[i].nlink == 1 && n != DOTDOT && i != d
  {
  }

  lemma AddFolderKeeps(s: Tree, d: nat, n: Name, i: nat, e: nat, m: Name, j: nat)
    requires Fresh(s, d, n) && i in s && s[i].Free? && s[d].nlink == 0 && RefAt(s, e, m, j)
    ensures RefAt(AddFolder(s, d, n, i), e, m, j) && !(e == d && m == DOTDOT)
  {
  }

  /** A new directory keeps the invariant, and the counts, exactly if the one it is made in is
      itself linked. */
  lemma AddFolderOk(s: Tree, d: nat, n: Name, i: nat)
    requires Ok(s) && Fresh(s, d, n) && i in s && s[i].Free?
    ensures Ok(AddFolder(s, d, n, i)) <==> s[d].nlink > 0
    ensures Counted(AddFolder(s, d, n, i)) <==> s[d].nlink > 0
  {
    hide Counted, NamedOnce, Named;
    if s[d].nlink > 0 {
      AddFolderCounted(s, d, n, i);
      AddFolderOnce(s, d, n, i);
      AddFolderNamed(s, d, n, i);
    } else {
      AddFolderBreaks(s, d, n, i);
    }
  }

  // ----- names removed

  function DropName(s: Tree, d: nat, n: Name): Tree
    requires d in s && s[d].Folder?
  {
    s[d := s[d].(names := s[d].names - {n})]
  }

  function RemoveFile(s: Tree, d: nat, n: Name, i: nat): Tree
    requires d in s && s[d].Folder? && i in s && s[i].File? && s[i].nlink > 0
  {
    DropName(s, d, n)[i := File(s[i].nlink - 1)]
  }

  function RemoveFolder(s: Tree, d: nat, n: Name, i: nat): Tree
    requires d in s && s[d].Folder? && i in s && s[i].Folder? && i != d && s[i].nlink > 0 && s[d].nlink > 0
  {
    DropName(s[d := s[d].(nlink := s[d].nlink - 1)], d, n)[i := s[i].(nlink := s[i].nlink - 1)]
  }

  lemma RemoveFileOk(s: Tree, d: nat, n: Name, i: nat)
    requires Ok(s) && n != DOTDOT && RefAt(s, d, n, i) && i in s && s[i].File?
    ensures s[i].nlink > 0 && Ok(RemoveFile(s, d, n, i))
  {
    hide Counted, NamedOnce, Named;
    Linked(s, d, n, i);
    RemoveFileCounted(s, d, n, i);
    RemoveFileOneName(s, d, n, i);
  }

  lemma RemoveFileRefs(s: Tree, d: nat, n: Name, i: nat, e: nat, m: Name, j: nat)
    requires n != DOTDOT && RefAt(s, d, n, i) && i in s && s[i].File? && s[i].nlink > 0
    ensures RefAt(s, e, m, j) <==> RefAt(RemoveFile(s, d, n, i), e, m, j) || (j == i && e == d && m == n)
    ensures !RefAt(RemoveFile(s, d, n, i), d, n, i)
  {
  }

  lemma RemoveFileCounted(s: Tree, d: nat, n: Name, i: nat)
    requires Counted(s) && n != DOTDOT && RefAt(s, d, n, i) && i in s && s[i].File? && s[i].nlink > 0
    ensures Counted(RemoveFile(s, d, n, i))
  {
    hide Refs;
    var s' := RemoveFile(s, d, n, i);
    forall j | j in s'
      ensures Nlink(s'[j]) == |Refs(s', j)|
    {
      forall e, m
        ensures RefAt(s, e, m, j) <==> RefAt(s', e, m, j) || (j == i && e == d && m == n)
        ensures !RefAt(s', d, n, i)
      {
        RemoveFileRefs(s, d, n, i, e, m, j);
      }
      if j == i {
        RefsAdd(s', s, i, d, n);
      } else {
        RefsSame(s, s', j);
      }
    }
  }

  lemma RemoveFileOneName(s: Tree, d: nat, n: Name, i: nat)
    requires OneName(s) && n != DOTDOT && RefAt(s, d, n, i) && i in s && s[i].File? && s[i].nlink > 0
    ensures OneName(RemoveFile(s, d, n, i))
  {
    var s' := RemoveFile(s, d, n, i);
    forall e, m, j
      ensures RefAt(s, e, m, j) <==> RefAt(s', e, m, j) || (j == i && e == d && m == n)
    {
      RemoveFileRefs(s, d, n, i, e, m, j);
    }
    forall j | j in s' && s'[j].Folder? && s'[j].nlink > 0 && j != ROOT
      ensures exists m :: m != DOTDOT && RefAt(s', s'[j].up, m, j)
    {
      var m :| m != DOTDOT && RefAt(s, s[j].up, m, j);
      assert RefAt(s', s'[j].up, m, j);
    }
  }

  /** An empty directory with a name has just this one link. */
  lemma EmptyHasOneLink(s: Tree, d: nat, n: Name, i: nat)
    requires Ok(s) && n != DOTDOT && RefAt(s, d, n, i) && i in s && s[i].Folder? && s[i].names == map[]
    ensures i != d && i != ROOT && s[i].up == d && s[i].nlink == 1
  {
    hide Refs;
    forall x
      ensures x in Refs(s, i) <==> x == (d, n)
    {
      InRefs(s, i, x.0, x.1);
      if x.1 == DOTDOT {
        NoChildren(s, i, x.0);
      }
    }
    assert Refs(s, i) == {(d, n)};
  }

  lemma NoChildren(s: Tree, i: nat, e: nat)
    requires NamesOk(s) && Named(s) && i in s && s[i].Folder? && s[i].names == map[] && i != ROOT
    ensures !RefAt(s, e, DOTDOT, i)
  {
  }

  /** A directory with a subdirectory has a link from it, and another: its name, or the root's "..". */
  lemma ParentHasTwo(s: Tree, d: nat, i: nat)
    requires Ok(s) && d in s && s[d].Folder? && s[d].names != map[] && RefAt(s, i, DOTDOT, d) && i != d
    ensures s[d].nlink >= 2
  {
    hide Refs;
    var y: (nat, Name) := (d, DOTDOT);
    if d != ROOT {
      var n :| n != DOTDOT && RefAt(s, s[d].up, n, d);
      y := (s[d].up, n);
    }
    InRefs(s, d, i, DOTDOT);
    InRefs(s, d, y.0, y.1);
    assert {(i, DOTDOT), y} <= Refs(s, d);
    Two(Refs(s, d), (i, DOTDOT), y);
  }

  lemma Two(r: set<(nat, Name)>, x: (nat, Name), y: (nat, Name))
    requires x in r && y in r && x != y
    ensures |r| >= 2
  {
    assert |r - {x} - {y}| == |r| - 2;
  }

  lemma RemoveFolderRefs(s: Tree, d: nat, n: Name, i: nat, e: nat, m: Name, j: nat)
    requires n != DOTDOT && RefAt(s, d, n, i) && i in s && s[i].Folder? && i != d && s[i].nlink == 1 && s[d].nlink > 1 && s[i].up == d
    ensures RefAt(s, e, m, j) <==> RefAt(RemoveFolder(s, d, n, i), e, m, j) || (j == i && e == d && m == n) || (j == d && e == i && m == DOTDOT)
    ensures !RefAt(RemoveFolder(s, d, n, i), d, n, i) && !RefAt(RemoveFolder(s, d, n, i), i, DOTDOT, d)
  {
  }

  lemma RemoveFolderCounted(s: Tree, d: nat, n: Name, i: nat)
    requires Counted(s) && n != DOTDOT && RefAt(s, d, n, i) && i in s && s[i].Folder? && i != d && s[i].nlink == 1 && s[d].nlink > 1 && s[i].up == d
    ensures Counted(RemoveFolder(s, d, n, i))
  {
    hide Refs;
    var s' := RemoveFolder(s, d, n, i);
    forall j | j in s'
      ensures Nlink(s'[j]) == |Refs(s', j)|
    {
      forall e, m
        ensures RefAt(s, e, m, j) <==> RefAt(s', e, m, j) || (j == i && e == d && m == n) || (j == d && e == i && m == DOTDOT)
        ensures !RefAt(s', d, n, i) && !RefAt(s', i, DOTDOT, d)
      {
        RemoveFolderRefs(s, d, n, i, e, m, j);
      }
      if j == i {
        RefsAdd(s', s, i, d, n);
      } else if j == d {
        RefsAdd(s', s, d, i, DOTDOT);
      } else {
        RefsSame(s, s', j);
      }
    }
  }

  lemma RemoveFolderNamed(s: Tree, d: nat, n: Name, i: nat)
    requires Named(s) && n != DOTDOT && RefAt(s, d, n, i) && i in s && s[i].Folder? && i != d && s[i].nlink == 1 && s[d].nlink > 1 && s[i].up == d
    ensures Named(RemoveFolder(s, d, n, i))
  {
    var s' := RemoveFolder(s, d, n, i);
    forall j | j in s' && s'[j].Folder? && s'[j].nlink > 0 && j != ROOT
      ensures exists m :: m != DOTDOT && RefAt(s', s'[j].up, m, j)
    {
      var m :| m != DOTDOT && RefAt(s, s[j].up, m, j);
      RemoveFolderRefs(s, d, n, i, s[j].up, m, j);
      assert RefAt(s', s'[j].up, m, j);
    }
  }

  lemma RemoveFolderOnce(s: Tree, d: nat, n: Name, i: nat)
    requires NamedOnce(s) && n != DOTDOT && RefAt(s, d, n, i) && i in s && s[i].Folder? && i != d && s[i].nlink == 1 && s[d].nlink > 1 && s[i].up == d
    ensures NamedOnce(RemoveFolder(s, d, n, i))
  {
    var s' := RemoveFolder(s, d, n, i);
    forall e, m, j | RefAt(s', e, m, j)
      ensures RefAt(s, e, m, j)
    {
      RemoveFolderRefs(s, d, n, i, e, m, j);
    }
  }

  /** unlink of an empty directory. */
  lemma RemoveFolderOk(s: Tree, d: nat, n: Name, i: nat)
    requires Ok(s) && n != DOTDOT && RefAt(s, d, n, i) && i in s && s[i].Folder? && s[i].names == map[]
    ensures i != d && s[i].nlink == 1 && s[d].nlink > 1 && Ok(RemoveFolder(s, d, n, i))
  {
    hide Counted, NamedOnce, Named;
    EmptyHasOneLink(s, d, n, i);
    ParentHasTwo(s, d, i);
    RemoveFolderCounted(s, d, n, i);
    RemoveFolderNamed(s, d, n, i);
    RemoveFolderOnce(s, d, n, i);
  }

  // ----- the last iput of an inode without links

  function Put(s: Tree, i: nat): Tree
    requires i in s
  {
    s[i := Free]
  }

  lemma PutRefs(s: Tree, i: nat, e: nat, m: Name, j: nat)
    requires i in s && Nlink(s[i]) == 0
    ensures RefAt(Put(s, i), e, m, j) <==> RefAt(s, e, m, j) && e != i
    ensures RefAt(s, i, m, j) ==> s[i].Folder? && m in s[i].names && s[i].names[m] == j
  {
  }

  /** Freeing an unlinked inode keeps the counts exactly if it is no directory with entries. */
  lemma PutCounted(s: Tree, i: nat)
    requires NamesOk(s) && Counted(s) && i in s && Nlink(s[i]) == 0
    ensures Counted(Put(s, i)) <==> (s[i].Folder? ==> s[i].names == map[])
  {
    hide Refs, RefAt;
    if s[i].Folder? && s[i].names != map[] {
      var n :| n in s[i].names;
      PutLoses(s, i, n);
    } else {
      PutKeeps(s, i);
    }
  }

  lemma PutKeeps(s: Tree, i: nat)
    requires Counted(s) && i in s && Nlink(s[i]) == 0 && (s[i].Folder? ==> s[i].names == map[])
    ensures Counted(Put(s, i))
  {
    hide Refs, RefAt;
    var s' := Put(s, i);
    forall j | j in s'
      ensures Nlink(s'[j]) == |Refs(s', j)|
    {
      forall e, m
        ensures RefAt(s', e, m, j) <==> RefAt(s, e, m, j)
      {
        PutRefs(s, i, e, m, j);
      }
      RefsSame(s, s', j);
    }
  }

  lemma PutLoses(s: Tree, i: nat, n: Name)
    requires NamesOk(s) && Counted(s) && i in s && s[i].Folder? && s[i].nlink == 0 && n in s[i].names
    ensures !Counted(Put(s, i))
  {
    hide Refs, NamesOk;
    var s', j := Put(s, i), s[i].names[n];
    NameLeads(s, i, n);
    Nameless(s, i, i, n);
    forall x | x in Refs(s', j)
      ensures x in Refs(s, j) && x != (i, n)
    {
      InRefs(s, j, x.0, x.1);
      InRefs(s', j, x.0, x.1);
      PutRefs(s, i, x.0, x.1, j);
    }
    InRefs(s, j, i, n);
    Smaller(Refs(s', j), Refs(s, j), (i, n));
    assert s'[j] == s[j];
  }

  lemma NameLeads(s: Tree, d: nat, n: Name)
    requires NamesOk(s) && d in s && s[d].Folder? && n in s[d].names
    ensures n != DOTDOT && s[d].names[n] in s && RefAt(s, d, n, s[d].names[n])
  {
  }

  lemma Smaller(a: set<(nat, Name)>, b: set<(nat, Name)>, x: (nat, Name))
    requires x in b && forall y :: y in a ==> y in b && y != x
    ensures |a| < |b|
  {
    var c := b - {x};
    assert a <= c;
    assert |c - a| == |c| - |a|;
  }

  lemma PutOk(s: Tree, i: nat)
    requires Ok(s) && i in s && Nlink(s[i]) == 0
    ensures Ok(Put(s, i))
  {
    hide Counted, NamedOnce, Named, RefAt;
    PutCounted(s, i);
    PutOnce(s, i);
    PutNamed(s, i);
  }

  lemma PutOnce(s: Tree, i: nat)
    requires NamedOnce(s) && i in s && Nlink(s[i]) == 0
    ensures NamedOnce(Put(s, i))
  {
    hide RefAt;
    var s' := Put(s, i);
    forall e, m, j
      ensures RefAt(s', e, m, j) <==> RefAt(s, e, m, j) && e != i
    {
      PutRefs(s, i, e, m, j);
    }
  }

  lemma PutNamed(s: Tree, i: nat)
    requires DeadEmpty(s) && Named(s) && i in s && Nlink(s[i]) == 0
    ensures Named(Put(s, i))
  {
    hide RefAt;
    var s' := Put(s, i);
    forall j | j in s' && s'[j].Folder? && s'[j].nlink > 0 && j != ROOT
      ensures exists m :: m != DOTDOT && RefAt(s', s'[j].up, m, j)
    {
      var m :| m != DOTDOT && RefAt(s, s[j].up, m, j);
      PutRefs(s, i, s[j].up, m, j);
    }
  }

  /** For instance: a file made in a directory that is unlinked but still in use keeps a link when
      the directory goes, though nothing names it any more. */
  lemma LostName()
    ensures var n: Name := [120];
            var s: Tree := map[1 := Folder(1, 1, map[]), 2 := Folder(0, 1, map[]), 3 := Free];
            && Ok(s) && Fresh(s, 2, n) && Nlink(Put(AddFile(s, 2, n, 3), 2)[3]) == 1
            && forall d, m :: !RefAt(Put(AddFile(s, 2, n, 3), 2), d, m, 3)
  {
    BareOk(map[1 := Folder(1, 1, map[]), 2 := Folder(0, 1, map[]), 3 := Free]);
  }

  // ----- the system calls

  datatype Kind = KFile | KDevice | KDir

  /** Inodes other than d and i are as before. */
  predicate OthersSame(s: Tree, s': Tree, d: nat, i: nat) {
    s'.Keys == s.Keys && forall j :: j in s && j != d && j != i ==> s'[j] == s[j]
  }

  predicate FullFolder(s: Tree, i: nat) {
    i in s && s[i].Folder? && s[i].names != map[]
  }

  /** From s to s' entry n of d is gone, the inode it named has a link less, and so has d if that is a
      directory; nothing else has changed. */
  predicate Unlinked(s: Tree, s': Tree, d: nat, n: Name) {
    && Removable(s, d, n) && d in s' && s'[d].Folder?
    && var i := s[d].names[n];
    && i in s' && !s[i].Free? && s[i].nlink > 0 && OthersSame(s, s', d, i)
    && s'[i] == s[i].(nlink := s[i].nlink - 1)
    && s'[d] == s[d].(names := s[d].names - {n}, nlink := s'[d].nlink)
    && s[d].nlink == s'[d].nlink + if s[i].Folder? then 1 else 0
  }

  /** Entry n of directory d names a file or device. */
  predicate NamesFile(s: Tree, d: nat, n: Name)
    requires d in s && s[d].Folder?
  {
    n in s[d].names && s[d].names[n] in s && s[s[d].names[n]].File?
  }

  class Inodes {
    var nodes: Tree

    /** A new file system: the root, and the other inodes free. */
    constructor (ninodes: nat)
      requires ninodes > ROOT
      ensures Ok(nodes) && forall i: nat :: i in nodes <==> 0 < i < ninodes
      ensures forall i :: i in nodes && i != ROOT ==> nodes[i].Free?
    {
      hide Ok;
      nodes := map[ROOT := Folder(1, ROOT, map[])];
      new;
      var k := ROOT + 1;
      while k < ninodes
        invariant ROOT < k <= ninodes && Bare(nodes)
        invariant forall i: nat :: i in nodes <==> 0 < i < k
        invariant forall i :: i in nodes && i != ROOT ==> nodes[i].Free?
      {
        nodes := nodes[k := Free];
        k := k + 1;
      }
      BareOk(nodes);
    }

    /** n is an entry of d. */
    predicate Present(d: nat, n: Name)
      reads this
      requires d in nodes && nodes[d].Folder?
    {
      n in nodes[d].names || n == DOT || n == DOTDOT
    }

    /** sys_link on an inode found by namei, for entry n of directory d; ok says whether the entry can
        be written.  Nothing changes unless the call succeeds. */
    method Link(i: nat, d: nat, n: Name, ok: bool) returns (r: int)
      requires Ok(nodes) && i in nodes && !nodes[i].Free? && d in nodes && nodes[d].Folder?
      modifies this
      ensures r == 0 <==> ok && old(nodes)[i].File? && !old(Present(d, n))
      ensures r != 0 ==> r == -1 && nodes == old(nodes)
      ensures r == 0 ==> nodes == AddFile(old(nodes), d, n, i)
      ensures Ok(nodes) <==> r == -1 || old(nodes)[d].nlink > 0
      ensures Counted(nodes) && (r == 0 && old(nodes)[d].nlink == 0 ==> !Counted(Put(nodes, d)))
      ensures r == 0 ==>
                && d in nodes && nodes[d] == old(nodes)[d].(names := old(nodes)[d].names[n := i])
                && i in nodes && nodes[i] == File(old(nodes)[i].nlink + 1) && OthersSame(old(nodes), nodes, d, i)
    {
      hide Ok, Counted;
      OkCounted(nodes);
      if nodes[i].Folder? {
        return -1;
      }
      nodes := nodes[i := File(nodes[i].nlink + 1)];
      if Present(d, n) || !ok {
        nodes := nodes[i := File(nodes[i].nlink - 1)];
        return -1;
      }
      AddFileOk(old(nodes), d, n, i);
      nodes := AddName(nodes, d, n, i);
      r := 0;
    }

    /** create: entry n of directory d, with ialloc's inode, if it finds one.  A failure at any of the
        dirlink calls takes the new inode back. */
    method Create(d: nat, n: Name, kind: Kind, ino: Option<nat>, dots: bool, ok: bool) returns (r: Option<nat>)
      requires Ok(nodes) && d in nodes && nodes[d].Folder? && (ino.Some? ==> ino.value in nodes && nodes[ino.value].Free?)
      modifies this
      ensures old(Present(d, n)) ==> nodes == old(nodes) && (r.Some? <==> kind.KFile? && NamesFile(nodes, d, n))
      ensures old(Present(d, n)) && r.Some? ==> r == Some(nodes[d].names[n])
      ensures !old(Present(d, n)) ==> (r.Some? <==> ino.Some? && ok && (kind.KDir? ==> dots))
      ensures r.None? ==> nodes == old(nodes)
      ensures !old(Present(d, n)) && r.Some? ==> r == ino && nodes == Added(old(nodes), d, n, kind, ino.value)
      ensures Ok(nodes) <==> r.None? || old(Present(d, n)) || old(nodes)[d].nlink > 0
      ensures Counted(nodes) <==> Ok(nodes) || !kind.KDir?
      ensures Counted(nodes) && !Ok(nodes) ==> !Counted(Put(nodes, d))
      ensures !old(Present(d, n)) && r.Some? ==>
                && d in nodes && nodes[d].Folder? && nodes[d].names == old(nodes)[d].names[n := r.value]
                && nodes[d].up == old(nodes)[d].up && nodes[d].nlink == old(nodes)[d].nlink + (if kind.KDir? then 1 else 0)
                && r.value in nodes && nodes[r.value] == (if kind.KDir? then Folder(1, d, map[]) else File(1))
                && OthersSame(old(nodes), nodes, d, r.value)
    {
      hide Ok, Counted;
      OkCounted(nodes);
      if Present(d, n) {
        r := None;
        if kind.KFile? && NamesFile(nodes, d, n) {
          r := Some(nodes[d].names[n]);
        }
        return;
      }
      if ino.None? {
        return None;
      }
      var i := ino.value;
      nodes := nodes[i := if kind.KDir? then Folder(1, d, map[]) else File(1)];
      if (kind.KDir? && !dots) || !ok {
        nodes := nodes[i := Free];
        return None;
      }
      if kind.KDir? {
        AddFolderOk(old(nodes), d, n, i);
        nodes := nodes[d := nodes[d].(nlink := nodes[d].nlink + 1)];
      } else {
        AddFileOk(old(nodes), d, n, i);
      }
      nodes := AddName(nodes, d, n, i);
      r := Some(i);
    }

    /** sys_unlink of entry n of directory d.  The inode it names has a link, so the panic is not
        reached. */
    method Unlink(d: nat, n: Name) returns (r: int)
      requires Ok(nodes) && d in nodes && nodes[d].Folder?
      modifies this
      ensures Ok(nodes) && (r == 0 || (r == -1 && nodes == old(nodes)))
      ensures r == 0 <==> n != DOT && n != DOTDOT && n in old(nodes)[d].names && !FullFolder(old(nodes), old(nodes)[d].names[n])
      ensures r == 0 ==> nodes == Removed(old(nodes), d, n)
      ensures r == 0 ==> Unlinked(old(nodes), nodes, d, n)
    {
      hide Ok;
      if n == DOT || n == DOTDOT || n !in nodes[d].names {
        return -1;
      }
      var i := nodes[d].names[n];
      NameIs(nodes, d, n);
      assert Nlink(nodes[i]) >= 1;
      if nodes[i].Folder? && nodes[i].names != map[] {
        return -1;
      }
      RemoveOk(nodes, d, n);
      if nodes[i].Folder? {
        nodes := nodes[d := nodes[d].(nlink := nodes[d].nlink - 1)];
      }
      nodes := DropName(nodes, d, n);
      nodes := nodes[i := nodes[i].(nlink := nodes[i].nlink - 1)];
      r := 0;
    }

    /** iput; last says whether this is the only reference. */
    method Iput(i: nat, last: bool)
      requires Ok(nodes) && i in nodes && !nodes[i].Free?
      modifies this
      ensures Ok(nodes) && nodes == if last && old(nodes)[i].nlink == 0 then Put(old(nodes), i) else old(nodes)
    {
      hide Ok;
      if last && nodes[i].nlink == 0 {
        PutOk(nodes, i);
        nodes := nodes[i := Free];
      }
    }
  }

  /** An empty root, free inodes, and perhaps empty directories that are unlinked but in use. */
  ghost predicate Bare(s: Tree) {
    && ROOT in s && s[ROOT] == Folder(1, ROOT, map[])
    && forall i :: i in s && i != ROOT ==> s[i].Free? || (s[i].Folder? && s[i].nlink == 0 && s[i].names == map[] && s[i].up in s)
  }

  lemma BareOk(s: Tree)
    requires Bare(s)
    ensures Ok(s)
  {
    hide Refs;
    forall x, i | x in Refs(s, i)
      ensures i == ROOT && x == (ROOT, DOTDOT)
    {
      InRefs(s, i, x.0, x.1);
    }
    InRefs(s, ROOT, ROOT, DOTDOT);
    assert Refs(s, ROOT) == {(ROOT, DOTDOT)};
    forall i | i in s
      ensures Nlink(s[i]) == |Refs(s, i)|
    {
      assert i != ROOT ==> Refs(s, i) == {};
    }
  }

  /** sys_unlink gets through. */
  predicate Removable(s: Tree, d: nat, n: Name) {
    && d in s && s[d].Folder? && n != DOT && n != DOTDOT && n in s[d].names && s[d].names[n] in s
    && (s[s[d].names[n]].Folder? ==> s[s[d].names[n]].names == map[])
  }

  function Removed(s: Tree, d: nat, n: Name): Tree
    requires Removable(s, d, n)
  {
    var i := s[d].names[n];
    if s[i].Folder? && i != d && s[i].nlink > 0 && s[d].nlink > 0 then RemoveFolder(s, d, n, i)
    else if s[i].File? && s[i].nlink > 0 then RemoveFile(s, d, n, i)
    else s
  }

  lemma NameIs(s: Tree, d: nat, n: Name)
    requires Ok(s) && d in s && s[d].Folder? && n in s[d].names
    ensures n != DOT && n != DOTDOT && s[d].names[n] in s && RefAt(s, d, n, s[d].names[n]) && Nlink(s[s[d].names[n]]) >= 1
  {
    NameLeads(s, d, n);
    Linked(s, d, n, s[d].names[n]);
  }

  lemma RemoveOk(s: Tree, d: nat, n: Name)
    requires Ok(s) && Removable(s, d, n)
    ensures Ok(Removed(s, d, n))
    ensures var i := s[d].names[n]; Nlink(s[i]) >= 1 && i != d && (s[i].Folder? ==> s[d].nlink > 1)
    ensures d in Removed(s, d, n) && Removed(s, d, n)[d].Folder? && Removed(s, d, n)[d].names == s[d].names - {n}
  {
    hide Counted, NamedOnce, Named;
    NameIs(s, d, n);
    var i := s[d].names[n];
    if s[i].Folder? {
      RemoveFolderOk(s, d, n, i);
    } else {
      RemoveFileOk(s, d, n, i);
    }
  }

  // ----- runs

  /** What a successful call, or the last iput of an unlinked inode, does to the tree. */
  datatype Call = Make(d: nat, n: Name, kind: Kind, i: nat) | Hardlink(d: nat, n: Name, i: nat) | Remove(d: nat, n: Name) | Release(i: nat)

  ghost predicate Step(s: Tree, c: Call, s': Tree) {
    match c
    case Make(d, n, kind, i) => Fresh(s, d, n) && i in s && s[i].Free? && s' == Added(s, d, n, kind, i)
    case Hardlink(d, n, i) => Fresh(s, d, n) && i in s && s[i].File? && s' == AddFile(s, d, n, i)
    case Remove(d, n) => Removable(s, d, n) && s' == Removed(s, d, n)
    case Release(i) => i in s && Nlink(s[i]) == 0 && s' == Put(s, i)
  }

  /** The call makes no name in an unlinked directory. */
  predicate Proper(s: Tree, c: Call) {
    c.Make? || c.Hardlink? ==> c.d in s && s[c.d].Folder? && s[c.d].nlink > 0
  }

  /** One call keeps the invariant exactly if it is proper.  One that is not breaks the counts:
      mkdir at once, the others when the directory it made the name in is freed. */
  lemma StepOk(s: Tree, c: Call, s': Tree)
    requires Ok(s) && Step(s, c, s')
    ensures Ok(s') <==> Proper(s, c)
    ensures Counted(s') <==> Proper(s, c) || !(c.Make? && c.kind.KDir?)
    ensures !Proper(s, c) && Counted(s') ==> Nlink(s'[c.d]) == 0 && !Counted(Put(s', c.d))
  {
    hide Counted, NamesOk, DeadEmpty, OneName;
    match c
    case Make(d, n, kind, i) => {
      AddFileOk(s, d, n, i);
      AddFolderOk(s, d, n, i);
    }
    case Hardlink(d, n, i) => AddFileOk(s, d, n, i);
    case Remove(d, n) => RemoveOk(s, d, n);
    case Release(i) => PutOk(s, i);
  }

  /** In every run of proper calls the counts are right between calls. */
  lemma {:induction false} RunOk(ss: seq<Tree>, cs: seq<Call>, k: nat)
    requires |ss| == |cs| + 1 && k < |ss| && Ok(ss[0])
    requires forall j :: 0 <= j < |cs| ==> Step(ss[j], cs[j], ss[j + 1]) && Proper(ss[j], cs[j])
    ensures Ok(ss[k]) && forall i :: i in ss[k] ==> Nlink(ss[k][i]) == |Refs(ss[k], i)|
  {
    if k > 0 {
      RunOk(ss, cs, k - 1);
      StepOk(ss[k - 1], cs[k - 1], ss[k]);
    }
  }

  /** In a run of any calls, the invariant holds between all of them exactly if all are proper. */
  lemma RunOkExactly(ss: seq<Tree>, cs: seq<Call>)
    requires |ss| == |cs| + 1 && Ok(ss[0])
    requires forall j :: 0 <= j < |cs| ==> Step(ss[j], cs[j], ss[j + 1])
    ensures (forall k :: 0 <= k < |ss| ==> Ok(ss[k])) <==> (forall j :: 0 <= j < |cs| ==> Proper(ss[j], cs[j]))
  {
    hide Ok, Step, Proper;
    if forall j :: 0 <= j < |cs| ==> Proper(ss[j], cs[j]) {
      forall k | 0 <= k < |ss|
        ensures Ok(ss[k])
      {
        RunOk(ss, cs, k);
      }
    } else {
      var j :| 0 <= j < |cs| && !Proper(ss[j], cs[j]);
      if Ok(ss[j]) {
        StepOk(ss[j], cs[j], ss[j + 1]);
      }
    }
  }
}
