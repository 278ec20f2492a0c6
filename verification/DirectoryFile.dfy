/** The entries of a directory, written through writei into the directory's file. */
module DirectoryFile {
  import FsLayout
  import FsSpec
  import opened Directory
  import opened FsCode

  /** The file inum is a directory with this table. */
  ghost predicate IsDir(fs: FileSystem, inum: nat, table: map<Name, nat>)
    reads fs
  {
    && fs.Valid() && inum < |fs.inodes| && fs.inodes[inum].typ != 0
    && Represents(FsSpec.Content(fs.V(), inum), table)
  }

  /** The other files are as before. */
  ghost predicate OthersSame(v: FsSpec.View, w: FsSpec.View, inum: nat)
    requires FsSpec.AllMapped(v) && FsSpec.AllMapped(w)
  {
    |w.inodes| == |v.inodes| && forall j :: 0 <= j < |w.inodes| && j != inum ==>
      w.inodes[j] == v.inodes[j] && FsSpec.Content(w, j) == FsSpec.Content(v, j)
  }

  /** sys_unlink's write of a zeroed entry: it lies inside the directory and is copied from kernel
      memory, so the panic "unlink: writei" is not reached. */
  method EraseEntryIn(fs: FileSystem, inum: nat, k: nat, ghost name: Name, ghost table: map<Name, nat>) returns (panics: bool)
    requires IsDir(fs, inum, table) && name in table && Holds(FsSpec.Content(fs.V(), inum), k, name, table[name])
    modifies fs
    ensures !panics && IsDir(fs, inum, table - {name}) && OthersSame(old(fs.V()), fs.V(), inum)
  {
    hide Represents, PutEntry, InumOf, NameOf, EntryAt, FsLayout.MapsTo;
    hide FsSpec.Owned, FsSpec.Tidy, FsSpec.Content, FsSpec.Stuck, FsSpec.Overwrite, FsSpec.NoHoles;
    ghost var c := FsSpec.Content(fs.V(), inum);
    var de := Entry(0, seq(DIRSIZ, _ => 0));
    EntryRead(0, seq(DIRSIZ, _ => 0));
    WholeEntries(c, table);
    EraseEntry(c, table, k, name, de);
    PutIsOverwrite(c, k, de);
    EntryFits(fs, inum, k);
    var ok := fs.WriteEntry(inum, de, ENTRY * k, false);
    panics := !ok;
  }

  /** dirlink's write of an entry at the slot it found, for a name that is not in the directory. */
  method AddEntryIn(fs: FileSystem, inum: nat, k: nat, de: seq<Byte>, ghost table: map<Name, nat>) returns (r: int)
    requires IsDir(fs, inum, table) && FirstUnused(FsSpec.Content(fs.V(), inum), k)
    requires |de| == ENTRY && InumOf(de) != 0 && NameOf(de) !in table
    modifies fs
    ensures fs.Valid() && OthersSame(old(fs.V()), fs.V(), inum)
    ensures r == 0 ==> IsDir(fs, inum, table[NameOf(de) := InumOf(de)])
    ensures r != 0 ==> r == -1 && IsDir(fs, inum, table)
    ensures k < Slots(old(FsSpec.Content(fs.V(), inum))) ==> r == 0
  {
    hide Represents, PutEntry, InumOf, NameOf, EntryAt, FsLayout.MapsTo;
    hide FsSpec.Owned, FsSpec.Tidy, FsSpec.Content, FsSpec.Stuck, FsSpec.Overwrite, FsSpec.NoHoles;
    ghost var c := FsSpec.Content(fs.V(), inum);
    WholeEntries(c, table);
    AddEntry(c, table, k, de);
    PutIsOverwrite(c, k, de);
    EntryFits(fs, inum, k);
    var ok := fs.WriteEntry(inum, de, ENTRY * k, false);
    r := if ok then 0 else -1;
  }

  lemma EntryFits(fs: FileSystem, inum: nat, k: nat)
    requires fs.Valid() && inum < |fs.inodes| && k <= Slots(FsSpec.Content(fs.V(), inum))
    ensures ENTRY * k < FsLayout.UINT
  {
  }
}
