/** Directories of fs.c: files of 16-byte entries read as finite maps from names to inode
    numbers. The file itself is the byte sequence that readi and writei work on (FsCode). */
module Directory {
  import opened Blocks
  import opened FsLayout
  import opened FsBytes

  const DIRSIZ := 14
  const ENTRY := 16

  type Name = seq<Byte>

  /** A C string, without its terminating NUL. */
  predicate IsCString(s: Name) { forall i :: 0 <= i < |s| ==> s[i] != 0 }

  /** struct dirent; the name field is always DIRSIZ bytes long. */
  datatype Dirent = Dirent(inum: nat, name: seq<Byte>)

  predicate IsDirent(e: Dirent) { e.inum < 0x1_0000 && |e.name| == DIRSIZ }

  // ----------------------------------------------------------------- names

  /** The bytes before the first NUL. */
  function UpToNul(s: seq<Byte>): (r: Name)
    ensures IsCString(r)
    ensures |r| <= |s| && r == s[..|r|] && (|r| < |s| ==> s[|r|] == 0)
  {
    if s == [] || s[0] == 0 then [] else [s[0]] + UpToNul(s[1..])
  }

  /** A name as directories know it: cut to DIRSIZ bytes. */
  function Cut(name: Name): (r: Name)
    ensures IsCString(name) ==> IsCString(r)
    ensures |r| <= DIRSIZ && r <= name
  {
    if |name| <= DIRSIZ then name else name[..DIRSIZ]
  }

  /** The name an entry holds. */
  function NameOf(e: Dirent): Name { UpToNul(e.name) }

  function At(s: seq<Byte>, i: nat): Byte { if i < |s| then s[i] else 0 }

  /** strncmp(name, field, DIRSIZ) == 0, as the loop computes it. */
  method NameCmp(name: Name, field: seq<Byte>) returns (equal: bool)
    requires IsCString(name) && |field| == DIRSIZ
    ensures equal <==> Cut(name) == UpToNul(field)
  {
    var n := DIRSIZ;
    var i := 0;
    while n > 0 && At(name, i) != 0 && At(name, i) == At(field, i)
      invariant 0 <= n && i + n == DIRSIZ && i <= |name|
      invariant forall k :: 0 <= k < i ==> At(name, k) == At(field, k) != 0
    {
      n := n - 1;
      i := i + 1;
    }
    equal := n == 0 || At(name, i) == At(field, i);
    CmpDecides(name, field, i);
  }

  /** Where the comparison stops, it has decided. */
  lemma CmpDecides(name: Name, field: seq<Byte>, i: nat)
    requires IsCString(name) && |field| == DIRSIZ && i <= DIRSIZ && i <= |name|
    requires forall k :: 0 <= k < i ==> At(name, k) == At(field, k) != 0
    requires i == DIRSIZ || At(name, i) == 0 || At(name, i) != At(field, i)
    ensures i == DIRSIZ || At(name, i) == At(field, i) <==> Cut(name) == UpToNul(field)
  {
    var c, f := Cut(name), UpToNul(field);
    forall k | 0 <= k < i ensures name[k] == field[k] {
      assert At(name, k) == At(field, k);
    }
    if i == DIRSIZ || At(name, i) == At(field, i) {
      PadUpToNul(field[..i], field);
      assert c == name[..i] == field[..i];
    } else {
      assert i < |c| ==> c[i] == At(name, i);
      assert i < |f| ==> f[i] == At(field, i);
      assert i >= |f| ==> At(field, i) == 0 || |f| < i;
    }
  }

  /** strncpy(de.name, name, DIRSIZ). */
  function Pad(name: Name): (r: seq<Byte>)
    requires IsCString(name)
    ensures |r| == DIRSIZ && UpToNul(r) == Cut(name)
  {
    var c := Cut(name);
    var r := c + seq(DIRSIZ - |c|, _ => 0);
    PadUpToNul(c, r);
    r
  }

  lemma PadUpToNul(c: Name, r: seq<Byte>)
    requires IsCString(c) && |c| <= |r| && c == r[..|c|] && (|c| < |r| ==> r[|c|] == 0)
    ensures UpToNul(r) == c
  {
    if c != [] {
      PadUpToNul(c[1..], r[1..]);
    }
  }

  // --------------------------------------------------------------- entries

  /** The k-th entry of a directory file. */
  function EntryAt(data: seq<Byte>, k: nat): (e: Dirent)
    requires ENTRY * (k + 1) <= |data|
    ensures IsDirent(e)
  {
    Dirent(data[ENTRY * k] + 0x100 * (data[ENTRY * k + 1] as int), data[ENTRY * k + 2..ENTRY * k + ENTRY])
  }

  function Encode(e: Dirent): (b: seq<Byte>)
    requires IsDirent(e)
    ensures |b| == ENTRY && EntryAt(b, 0) == e
  {
    [e.inum % 0x100, e.inum / 0x100] + e.name
  }

  predicate IsDirectory(data: seq<Byte>) { |data| % ENTRY == 0 }

  function Entries(data: seq<Byte>): (es: seq<Dirent>)
    requires IsDirectory(data)
    ensures |es| == |data| / ENTRY && forall k :: 0 <= k < |es| ==> es[k] == EntryAt(data, k)
  {
    seq(|data| / ENTRY, k requires 0 <= k < |data| / ENTRY => EntryAt(data, k))
  }

  /** Writing an encoded entry at slot k replaces that entry, or appends it. */
  lemma WriteEntry(data: seq<Byte>, k: nat, e: Dirent)
    requires IsDirectory(data) && IsDirent(e) && k <= |data| / ENTRY
    ensures var d := Overwrite(data, ENTRY * k, Encode(e));
            && IsDirectory(d)
            && Entries(d) == if k < |data| / ENTRY then Entries(data)[k := e] else Entries(data) + [e]
  {
    var d := Overwrite(data, ENTRY * k, Encode(e));
    var want := if k < |data| / ENTRY then Entries(data)[k := e] else Entries(data) + [e];
    assert |d| == ENTRY * |want|;
    forall j | 0 <= j < |want| ensures EntryAt(d, j) == want[j] {
      if j == k {
        assert d[ENTRY * k..ENTRY * k + ENTRY] == Encode(e);
        assert EntryAt(d, j).name == Encode(e)[2..ENTRY];
      } else {
        assert d[ENTRY * j + 2..ENTRY * j + ENTRY] == data[ENTRY * j + 2..ENTRY * j + ENTRY];
      }
    }
  }

  // ------------------------------------------------------------ finite map

  predicate Live(e: Dirent) { e.inum != 0 }

  /** Live entries have different names. */
  predicate Distinct(es: seq<Dirent>) {
    forall j, k :: 0 <= j < k < |es| && Live(es[j]) && Live(es[k]) ==> NameOf(es[j]) != NameOf(es[k])
  }

  /** The directory as a map from names to inode numbers. */
  function Bindings(es: seq<Dirent>): map<Name, nat> {
    if es == [] then map[] else
    var m := Bindings(es[..|es| - 1]);
    var e := es[|es| - 1];
    if Live(e) then m[NameOf(e) := e.inum] else m
  }

  lemma {:induction false} BindingOf(es: seq<Dirent>, k: nat)
    requires Distinct(es) && k < |es| && Live(es[k])
    ensures NameOf(es[k]) in Bindings(es) && Bindings(es)[NameOf(es[k])] == es[k].inum
  {
    hide NameOf;
    if k < |es| - 1 {
      BindingOf(es[..|es| - 1], k);
    }
  }

  predicate Names(es: seq<Dirent>, x: Name) {
    exists k :: 0 <= k < |es| && Live(es[k]) && NameOf(es[k]) == x
  }

  /** x is bound exactly if some live entry has that name. */
  lemma {:induction false} Bound(es: seq<Dirent>, x: Name)
    ensures x in Bindings(es) <==> Names(es, x)
  {
    hide NameOf;
    if es != [] {
      var es0, e := es[..|es| - 1], es[|es| - 1];
      Bound(es0, x);
      if Names(es0, x) {
        var k :| 0 <= k < |es0| && Live(es0[k]) && NameOf(es0[k]) == x;
        assert es[k] == es0[k];
      }
      if Names(es, x) && !(Live(e) && NameOf(e) == x) {
        var k :| 0 <= k < |es| && Live(es[k]) && NameOf(es[k]) == x;
        assert es0[k] == es[k];
      }
    }
  }

  lemma AddAt(es: seq<Dirent>, es': seq<Dirent>, k: nat, e: Dirent, x: Name)
    requires Distinct(es) && Distinct(es') && k < |es'| && |es| <= |es'| && es'[k] == e && (k < |es| ==> !Live(es[k]))
    requires forall j :: 0 <= j < |es'| && j != k ==> j < |es| && es'[j] == es[j]
    requires NameOf(e) !in Bindings(es)
    ensures x in Bindings(es') <==> x in Bindings(es) || (Live(e) && x == NameOf(e))
    ensures x in Bindings(es') ==> Bindings(es')[x] == if Live(e) && x == NameOf(e) then e.inum else Bindings(es)[x]
  {
    hide Bindings, NameOf;
    Bound(es, x);
    Bound(es', x);
    if x in Bindings(es) {
      var j :| 0 <= j < |es| && Live(es[j]) && NameOf(es[j]) == x;
      assert es'[j] == es[j];
      BindingOf(es, j);
      BindingOf(es', j);
    } else if Live(e) && x == NameOf(e) {
      BindingOf(es', k);
    }
  }

  /** A new live entry in an empty or new slot adds exactly one binding. */
  lemma AddBinding(es: seq<Dirent>, k: nat, e: Dirent)
    requires Distinct(es) && k <= |es| && (k < |es| ==> !Live(es[k]))
    requires NameOf(e) !in Bindings(es)
    ensures var es' := if k < |es| then es[k := e] else es + [e];
            && Distinct(es')
            && Bindings(es') == if Live(e) then Bindings(es)[NameOf(e) := e.inum] else Bindings(es)
  {
    var es' := if k < |es| then es[k := e] else es + [e];
    AddDistinct(es, es', k, e);
    hide Bindings, NameOf, Distinct;
    forall x: Name
      ensures x in Bindings(es') <==> x in Bindings(es) || (Live(e) && x == NameOf(e))
      ensures x in Bindings(es') ==> Bindings(es')[x] == if Live(e) && x == NameOf(e) then e.inum else Bindings(es)[x]
    {
      AddAt(es, es', k, e, x);
    }
  }

  lemma AddDistinct(es: seq<Dirent>, es': seq<Dirent>, k: nat, e: Dirent)
    requires Distinct(es) && k <= |es| && NameOf(e) !in Bindings(es)
    requires es' == if k < |es| then es[k := e] else es + [e]
    ensures Distinct(es')
  {
    forall j | 0 <= j < |es| && Live(es[j]) ensures NameOf(es[j]) != NameOf(e) {
      BindingOf(es, j);
    }
  }

  lemma RemoveAt(es: seq<Dirent>, k: nat, e: Dirent, x: Name)
    requires Distinct(es) && k < |es| && Live(es[k]) && !Live(e) && Distinct(es[k := e])
    ensures x in Bindings(es[k := e]) <==> x in Bindings(es) && x != NameOf(es[k])
    ensures x in Bindings(es[k := e]) ==> Bindings(es[k := e])[x] == Bindings(es)[x]
  {
    hide Bindings, NameOf;
    var es' := es[k := e];
    Bound(es, x);
    Bound(es', x);
    if x in Bindings(es') {
      var j :| 0 <= j < |es'| && Live(es'[j]) && NameOf(es'[j]) == x;
      BindingOf(es, j);
      BindingOf(es', j);
    }
    if x in Bindings(es) && x != NameOf(es[k]) {
      var j :| 0 <= j < |es| && Live(es[j]) && NameOf(es[j]) == x;
      assert es'[j] == es[j];
    }
  }

  /** Clearing a live entry removes exactly its binding. */
  lemma RemoveBinding(es: seq<Dirent>, k: nat, e: Dirent)
    requires Distinct(es) && k < |es| && Live(es[k]) && !Live(e)
    ensures Distinct(es[k := e]) && Bindings(es[k := e]) == Bindings(es) - {NameOf(es[k])}
  {
    hide Bindings, NameOf;
    var es' := es[k := e];
    forall x: Name
      ensures x in Bindings(es') <==> x in Bindings(es) && x != NameOf(es[k])
      ensures x in Bindings(es') ==> Bindings(es')[x] == Bindings(es)[x]
    {
      RemoveAt(es, k, e, x);
    }
  }

  // ------------------------------------------------------------- the code

  /** Index of the first empty entry, or the number of entries. */
  function FirstEmpty(es: seq<Dirent>): (k: nat)
    ensures k <= |es| && (k < |es| ==> !Live(es[k])) && forall j :: 0 <= j < k ==> Live(es[j])
  {
    if es == [] || !Live(es[0]) then 0 else 1 + FirstEmpty(es[1..])
  }

  lemma FirstEmptyIs(es: seq<Dirent>, k: nat)
    requires k <= |es| && (k < |es| ==> !Live(es[k])) && forall j :: 0 <= j < k ==> Live(es[j])
    ensures FirstEmpty(es) == k
  {
    if k > 0 {
      FirstEmptyIs(es[1..], k - 1);
    }
  }

  function Put(es: seq<Dirent>, k: nat, e: Dirent): seq<Dirent>
    requires k <= |es|
  {
    if k < |es| then es[k := e] else es + [e]
  }

  datatype Lookup = NotFound | Found(inum: nat, off: nat)

  class Dir {
    var data: seq<Byte> // the contents of the directory's inode

    ghost predicate Valid()
      reads this
    {
      IsDirectory(data) && Distinct(Entries(data))
    }

    ghost function Contents(): map<Name, nat>
      requires Valid()
      reads this
    {
      Bindings(Entries(data))
    }

    constructor ()
      ensures Valid() && Contents() == map[]
    {
      data := [];
    }

    /** dirlookup: the inode number the name is bound to, and where its entry is. */
    method Lookup(name: Name) returns (r: Lookup)
      requires Valid() && IsCString(name)
      ensures r.Found? <==> Cut(name) in Contents()
      ensures r.Found? ==>
                && r.inum == Contents()[Cut(name)]
                && r.off % ENTRY == 0 && r.off < |data|
                && NameOf(EntryAt(data, r.off / ENTRY)) == Cut(name) && EntryAt(data, r.off / ENTRY).inum == r.inum != 0
    {
      hide Bindings, Cut, UpToNul, Distinct;
      ghost var es := Entries(data);
      Bound(es, Cut(name));
      var off := 0;
      while off < |data|
        invariant 0 <= off <= |data| && off % ENTRY == 0
        invariant forall k :: 0 <= k < off / ENTRY && Live(es[k]) ==> NameOf(es[k]) != Cut(name)
      {
        var de := EntryAt(data, off / ENTRY);
        if de.inum != 0 {
          var equal := NameCmp(name, de.name);
          if equal {
            BindingOf(es, off / ENTRY);
            return Found(de.inum, off);
          }
        }
        off := off + ENTRY;
      }
      return NotFound;
    }

    /** "Look for an empty dirent": its offset, or the end of the file. */
    method FindEmpty() returns (off: nat)
      requires Valid()
      ensures off == ENTRY * FirstEmpty(Entries(data))
    {
      ghost var es := Entries(data);
      off := 0;
      while off < |data|
        invariant 0 <= off <= |data| && off % ENTRY == 0
        invariant forall k :: 0 <= k < off / ENTRY ==> Live(es[k])
      {
        var de := EntryAt(data, off / ENTRY);
        if de.inum == 0 {
          break;
        }
        off := off + ENTRY;
      }
      FirstEmptyIs(es, off / ENTRY);
    }

    /** dirlink: fails on a bound name and changes nothing; otherwise the first empty slot, or
        a new one at the end, gets the entry, and the map gains exactly that binding. The inode
        number is stored in 16 bits. The write fails, and the kernel panics, only on a
        directory file of maximal size without an empty slot. */
    method Link(name: Name, inum: Word) returns (r: int, panicked: bool)
      requires Valid() && IsCString(name)
      modifies this
      ensures r == -1 <==> Cut(name) in old(Contents())
      ensures r == -1 ==> !panicked && data == old(data)
      ensures r != -1 ==> (panicked <==> ENTRY * FirstEmpty(Entries(old(data))) + ENTRY > MAXFILE * BSIZE)
      ensures r != -1 && !panicked ==>
                && Valid()
                && Contents() == (if inum % 0x1_0000 == 0 then old(Contents())
                                  else old(Contents())[Cut(name) := inum % 0x1_0000])
                && Entries(data) == Put(Entries(old(data)), FirstEmpty(Entries(old(data))),
                                        Dirent(inum % 0x1_0000, Pad(name)))
    {
      hide Bindings, Cut, UpToNul, Pad, Distinct, Entries, Overwrite, Encode, FirstEmpty;
      var found := Lookup(name);
      if found.Found? {
        return -1, false;
      }
      ghost var es := Entries(data);
      var off := FindEmpty();
      var de := Dirent(inum % 0x1_0000, Pad(name));
      if off + ENTRY > MAXFILE * BSIZE {
        return 0, true;
      }
      WriteEntry(data, off / ENTRY, de);
      AddBinding(es, off / ENTRY, de);
      data := Overwrite(data, off, Encode(de));
      return 0, false;
    }

    /** The part of unlink that clears the entry dirlookup found. */
    method Clear(off: nat)
      requires Valid() && off % ENTRY == 0 && off < |data| && Live(EntryAt(data, off / ENTRY))
      modifies this
      ensures Valid() && |data| == |old(data)|
      ensures Contents() == old(Contents()) - {NameOf(EntryAt(old(data), off / ENTRY))}
    {
      var de := Dirent(0, seq(DIRSIZ, _ => 0));
      WriteEntry(data, off / ENTRY, de);
      RemoveBinding(Entries(data), off / ENTRY, de);
      data := Overwrite(data, off, Encode(de));
    }
  }
}
