/** The files of a commit: the parent's, as the chosen rows of the checkout change, rename and remove them. */
module CommitFiles {
  import opened Basics
  import opened PathOrder
  import opened SparseRecord

  datatype Content = Unread | FromDisk(data: int) | FromBlob(rid: int) | Carried(uuid: int)

  /** A file card of the new check-in. */
  datatype File = File(name: string, content: Content, perm: Perm, oldName: Option<string>)

  /**
   * A file of the parent: its artifact's name, the id of that artifact's row (0 if none is
   * held) and its permission.
   */
  datatype ParentFile = ParentFile(uuid: int, rid: int, perm: Perm)

  datatype DiskFile = DiskFile(data: int, perm: Perm)

  /** What the commit knows of a row: origname is the name it was renamed from, if it was. */
  datatype Tracked = Tracked(origname: Option<string>, deleted: bool, rid: int, chnged: nat, perm: Perm)

  /**
   * What a commit works from: the parent's files, the rows, the disk and whether it has
   * permissions to read, the rows selected (None for all of them), and the names covered.
   */
  datatype Inputs = Inputs(
    parent: map<string, ParentFile>, entries: map<string, Tracked>, disk: map<string, DiskFile>, readsPerms: bool,
    selected: Option<set<string>>, covers: string -> bool)

  datatype Refusal = Unreadable(name: string) | MissingFile(name: string) | NoBlob(name: string)

  datatype Attempt<T> = Done(value: T) | Refused(why: Refusal)

  predicate ContentChanged(t: Tracked) {
    t.rid == 0 || t.chnged > 0
  }

  /** The name has a row that the commit is to record. */
  predicate Chosen(c: Inputs, n: string) {
    n in c.entries && (c.selected == None || n in c.selected.value)
  }

  /** The rows whose files are read from disk. */
  predicate Changed(c: Inputs, n: string) {
    Chosen(c, n) && !c.entries[n].deleted && ContentChanged(c.entries[n])
  }

  predicate Deleted(c: Inputs, n: string) {
    Chosen(c, n) && c.entries[n].deleted
  }

  /** A chosen row of those seen was renamed away from n. */
  ghost predicate MovedAway(c: Inputs, seen: set<string>, n: string) {
    exists m :: m in seen && Chosen(c, m) && c.entries[m].origname == Some(n)
  }

  // ------------------------------------------------------------- what is to be committed

  /** The names of the commit. */
  ghost predicate Emits(c: Inputs, n: string) {
    if Chosen(c, n) then
      !c.entries[n].deleted && (n in c.parent || ContentChanged(c.entries[n]) || c.entries[n].origname.Some?)
    else n in c.parent && (n in c.entries || !MovedAway(c, c.entries.Keys, n))
  }

  /** Where a name's content comes from. */
  function ContentOf(c: Inputs, n: string): Content {
    if Changed(c, n) then (if n in c.disk then FromDisk(c.disk[n].data) else Unread)
    else if n in c.entries then FromBlob(c.entries[n].rid)
    else if n in c.parent then (if c.covers(n) then FromBlob(c.parent[n].rid) else Carried(c.parent[n].uuid))
    else Unread
  }

  /** A chosen file has the permission on disk, or the recorded one where disks have none. */
  function PermOf(c: Inputs, n: string): Perm {
    if Chosen(c, n) then LivePerm(c, n)
    else if n in c.parent then c.parent[n].perm
    else Plain
  }

  function LivePerm(c: Inputs, n: string): Perm
    requires n in c.entries
  {
    if c.readsPerms && n in c.disk then c.disk[n].perm else c.entries[n].perm
  }

  function OldNameOf(c: Inputs, n: string): Option<string> {
    if Chosen(c, n) then c.entries[n].origname else None
  }

  /** The commit's files, with no word of the order anything was looked at. */
  ghost predicate IsCommit(c: Inputs, files: map<string, File>) {
    && (forall n {:trigger n in files} :: n in files <==> Emits(c, n))
    && (forall n {:trigger files[n]} :: n in files ==>
          files[n] == File(n, ContentOf(c, n), PermOf(c, n), OldNameOf(c, n)))
  }

  /** Everything the commit is to hold can be read. */
  ghost predicate CanCommit(c: Inputs) {
    forall n :: Emits(c, n) ==> Loadable(c, n)
  }

  /** The name's content is there to be loaded, and its file there to vouch for it if it is chosen. */
  predicate Loadable(c: Inputs, n: string) {
    if Chosen(c, n) then n in c.disk
    else if n in c.entries then c.entries[n].rid != 0
    else n in c.parent && (c.covers(n) ==> c.parent[n].rid != 0)
  }

  /** Only one commit meets the description. */
  lemma {:induction false} CommitUnique(c: Inputs, a: map<string, File>, b: map<string, File>)
    requires IsCommit(c, a) && IsCommit(c, b)
    ensures a == b
  {
    forall n ensures n in a <==> n in b {
    }
  }

  /** A chosen file that is new or recorded as changed comes from disk, any other from its artifact. */
  lemma {:induction false} ContentAsRecorded(c: Inputs, files: map<string, File>)
    requires IsCommit(c, files) && CanCommit(c)
    ensures forall n :: n in files && Chosen(c, n) ==>
              && !c.entries[n].deleted && n in c.disk
              && files[n].content == (if c.entries[n].rid == 0 || c.entries[n].chnged > 0
                                      then FromDisk(c.disk[n].data) else FromBlob(c.entries[n].rid))
              && files[n].perm == (if c.readsPerms then c.disk[n].perm else c.entries[n].perm)
              && files[n].oldName == c.entries[n].origname
    ensures forall n :: Chosen(c, n) && !c.entries[n].deleted && c.entries[n].rid == 0 ==> n in files
  {
    forall n | n in files && Chosen(c, n) ensures Emits(c, n) && Loadable(c, n) {
    }
    forall n | Chosen(c, n) && !c.entries[n].deleted && c.entries[n].rid == 0 ensures n in files {
      assert Emits(c, n);
    }
  }

  /** The content a file of the commit has, blobs giving the artifacts'. */
  function DataOf(content: Content, blobs: map<int, int>): Option<int> {
    match content
    case FromDisk(data) => Some(data)
    case FromBlob(rid) => if rid in blobs then Some(blobs[rid]) else None
    case _ => None
  }

  /** If a row without a change to show has its artifact's content on disk, the commit holds what is on disk. */
  lemma {:induction false} CommitsTheDisk(c: Inputs, files: map<string, File>, blobs: map<int, int>)
    requires IsCommit(c, files) && CanCommit(c)
    requires forall n :: Chosen(c, n) && n in c.disk && c.entries[n].rid != 0 && c.entries[n].chnged == 0 ==>
               c.entries[n].rid in blobs && blobs[c.entries[n].rid] == c.disk[n].data
    ensures forall n :: n in files && Chosen(c, n) ==>
              n in c.disk && DataOf(files[n].content, blobs) == Some(c.disk[n].data)
  {
    ContentAsRecorded(c, files);
  }

  // ------------------------------------------------------------------- parent files, once

  /** The parent file a commit's file continues: none for a newly added one. */
  function Continues(c: Inputs, n: string): Option<string> {
    if !Chosen(c, n) then Some(n)
    else if c.entries[n].origname.Some? then c.entries[n].origname
    else if c.entries[n].rid == 0 then None
    else Some(n)
  }

  /** Chosen rows with a committed version come from different files. */
  ghost predicate OriginsDiffer(c: Inputs) {
    forall m, n :: Chosen(c, m) && Chosen(c, n) && m != n && Continues(c, m).Some? ==>
        Continues(c, m) != Continues(c, n)
  }

  /** The row a chosen rename takes its file from the name of is chosen too. */
  ghost predicate OriginsChosen(c: Inputs) {
    forall n :: Chosen(c, n) && c.entries[n].origname.Some? && c.entries[n].origname.value in c.entries ==>
      Chosen(c, c.entries[n].origname.value)
  }

  lemma {:induction false} RowMovedAway(c: Inputs, n: string, p: string)
    ensures Chosen(c, n) && c.entries[n].origname == Some(p) ==> MovedAway(c, c.entries.Keys, p)
  {
    assert n in c.entries ==> n in c.entries.Keys;
  }

  /** A parent file is continued by at most one file of the commit, which says so if the name is new. */
  lemma {:induction false} ParentFileOnce(c: Inputs, files: map<string, File>, p: string, m: string, n: string)
    requires IsCommit(c, files) && OriginsDiffer(c) && OriginsChosen(c)
    requires m in files && n in files && Continues(c, m) == Some(p) && Continues(c, n) == Some(p)
    ensures m == n
    ensures m != p ==> files[m].oldName == Some(p)
  {
    assert Emits(c, m) && Emits(c, n);
    RowMovedAway(c, m, p);
    RowMovedAway(c, n, p);
  }

  /** A parent file whose row is removed is in the commit under no name. */
  lemma {:induction false} RemovedNowhere(c: Inputs, files: map<string, File>, p: string, m: string, n: string)
    requires IsCommit(c, files) && OriginsDiffer(c) && OriginsChosen(c)
    requires Chosen(c, m) && c.entries[m].deleted && Continues(c, m) == Some(p)
    requires n in files
    ensures Continues(c, n) != Some(p)
  {
    assert Emits(c, n);
    RowMovedAway(c, m, p);
  }

  /** A parent file whose row is not removed, or that has none, is in the commit. */
  lemma {:induction false} OthersSomewhere(c: Inputs, files: map<string, File>, p: string)
    requires IsCommit(c, files) && p in c.parent
    requires forall m :: Chosen(c, m) && Continues(c, m) == Some(p) ==> !c.entries[m].deleted
    requires Chosen(c, p) ==> exists m :: Chosen(c, m) && Continues(c, m) == Some(p)
    ensures exists n :: n in files && Continues(c, n) == Some(p)
  {
    if m :| Chosen(c, m) && Continues(c, m) == Some(p) {
      assert Emits(c, m);
      assert m in files;
    } else {
      assert !Chosen(c, p);
      assert forall m :: Chosen(c, m) ==> Continues(c, m) != Some(p);
      assert p in files;
    }
  }

  // -------------------------------------------------------- where rows really come from

  /** The parent file a commit's file really continues; home tells a chosen row's. */
  function ReallyContinues(c: Inputs, home: map<string, string>, n: string): Option<string> {
    if !Chosen(c, n) then Some(n) else if n in home then Some(home[n]) else None
  }

  /** home gives each chosen row of a committed file the parent file it came from, no two the same. */
  ghost predicate Homes(c: Inputs, home: map<string, string>) {
    && (forall n :: n in home ==> Chosen(c, n) && c.entries[n].rid != 0 && home[n] in c.parent)
    && (forall m, n :: m in home && n in home && m != n ==> home[m] != home[n])
  }

  /** No parent file is really continued by two files of the commit. */
  ghost predicate OnceEach(c: Inputs, home: map<string, string>, files: map<string, File>) {
    forall m, n :: m in files && n in files && m != n ==>
      ReallyContinues(c, home, m) == None || ReallyContinues(c, home, m) != ReallyContinues(c, home, n)
  }

  /** The file's parent name has a chosen row, or has none and a chosen row records that it was renamed from it. */
  ghost predicate HomeRetired(c: Inputs, home: map<string, string>, n: string)
    requires n in home
  {
    if home[n] in c.entries then Chosen(c, home[n]) else MovedAway(c, c.entries.Keys, home[n])
  }

  /**
   * Each parent file is in the commit at most once exactly when the name each chosen file
   * had in the parent has a chosen row, or has none and is one that a chosen row records
   * it was renamed from.
   */
  lemma {:induction false} OnceExactly(c: Inputs, files: map<string, File>, home: map<string, string>)
    requires IsCommit(c, files) && Homes(c, home)
    ensures OnceEach(c, home, files) <==> forall n :: n in files && n in home ==> HomeRetired(c, home, n)
  {
    forall n | n in files && n in home && !HomeRetired(c, home, n) ensures !OnceEach(c, home, files) {
      assert Emits(c, home[n]);
      assert home[n] in files && home[n] != n;
      assert ReallyContinues(c, home, home[n]) == ReallyContinues(c, home, n);
    }
    if forall n :: n in files && n in home ==> HomeRetired(c, home, n) {
      forall m, n | m in files && n in files && m != n
        ensures ReallyContinues(c, home, m) == None || ReallyContinues(c, home, m) != ReallyContinues(c, home, n)
      {
        assert Emits(c, m) && Emits(c, n);
      }
    }
  }

  /** So it is when each chosen row of a committed file records the parent name it came from. */
  lemma {:induction false} RecordedOriginsOnce(c: Inputs, files: map<string, File>, home: map<string, string>)
    requires IsCommit(c, files) && Homes(c, home) && OriginsChosen(c)
    requires forall n :: n in home ==> Continues(c, n) == Some(home[n])
    ensures OnceEach(c, home, files)
  {
    forall n | n in files && n in home ensures HomeRetired(c, home, n) {
      RowMovedAway(c, n, home[n]);
    }
    OnceExactly(c, files, home);
  }

  /** A file renamed from a to b to c records b: the commit then has it as a and as c. */
  lemma {:induction false} TwiceRenamedTwice(c: Inputs, files: map<string, File>, uuid: int, rid: int, perm: Perm)
    requires rid > 0 && c.parent == map["a" := ParentFile(uuid, rid, perm)]
    requires c.entries == map["c" := Tracked(Some("b"), false, rid, 1, perm)] && c.selected == None
    requires IsCommit(c, files)
    ensures OriginsDiffer(c) && OriginsChosen(c) && "a" in files && "c" in files
    ensures Homes(c, map["c" := "a"]) && !OnceEach(c, map["c" := "a"], files)
  {
    assert "a"[0] == 'a' && "b"[0] == 'b' && "c"[0] == 'c';
    assert Emits(c, "a") && Emits(c, "c");
    var home := map["c" := "a"];
    assert ReallyContinues(c, home, "a") == Some("a") == ReallyContinues(c, home, "c");
  }

  // ------------------------------------------------------------ what a commit leaves alone

  /** The file is in the commit with the content, permission and name it has in the parent. */
  ghost predicate AsInParent(c: Inputs, files: map<string, File>, n: string)
    requires n in c.parent
  {
    && n in files && files[n].perm == c.parent[n].perm && files[n].oldName == None
    && files[n].content in {FromBlob(c.parent[n].rid), Carried(c.parent[n].uuid)}
  }

  /** The parent's file of this name is no concern of the chosen rows. */
  ghost predicate LeftAlone(c: Inputs, n: string) {
    n in c.parent && !Chosen(c, n) && (n in c.entries || !MovedAway(c, c.entries.Keys, n))
  }

  /**
   * A commit leaves the parent's files that it was not asked to record as they are
   * exactly when no row left out stands at the name of a parent file it did not come
   * from.
   */
  lemma {:induction false} LeftAloneExactly(c: Inputs, files: map<string, File>)
    requires IsCommit(c, files)
    ensures (forall n :: LeftAlone(c, n) ==> AsInParent(c, files, n)) <==>
              forall n :: LeftAlone(c, n) && n in c.entries ==> c.entries[n].rid == c.parent[n].rid
  {
    forall n | LeftAlone(c, n)
      ensures AsInParent(c, files, n) <==> (n in c.entries ==> c.entries[n].rid == c.parent[n].rid)
    {
      assert Emits(c, n);
    }
  }

  /**
   * With a renamed to b and b to c, committing c alone gives b the content of a, though b
   * was left out, and has that content as a too.
   */
  lemma {:induction false} LeftOutTakesContent(c: Inputs, files: map<string, File>, a: ParentFile, b: ParentFile)
    requires a.rid != b.rid && c.parent == map["a" := a, "b" := b]
    requires c.entries ==
               map["b" := Tracked(Some("a"), false, a.rid, 0, a.perm),
               "c" := Tracked(Some("b"), false, b.rid, 0, b.perm)]
    requires c.selected == Some({"c"}) && c.covers("a") && IsCommit(c, files)
    ensures files.Keys == {"a", "b", "c"} && files["c"].oldName == Some("b")
    ensures files["a"].content == files["b"].content == FromBlob(a.rid)
  {
    assert "a"[0] == 'a' && "b"[0] == 'b' && "c"[0] == 'c';
    assert Emits(c, "a") && Emits(c, "b") && Emits(c, "c");
    forall n ensures n in files <==> n in {"a", "b", "c"} {
      assert n in files <==> Emits(c, n);
    }
  }

  // ------------------------------------------------------------------------- the passes

  /** The parent's files, without the removed ones, and with the changed ones read from disk. */
  ghost predicate Read(c: Inputs, files: map<string, File>) {
    && (forall n {:trigger n in files} :: n in files <==> Changed(c, n) || (n in c.parent && !Deleted(c, n)))
    && (forall n {:trigger files[n]} :: n in files ==>
          && files[n].name == n && files[n].oldName == None
          && (Changed(c, n) ==> n in c.disk && files[n].content == FromDisk(c.disk[n].data))
          && (!Changed(c, n) ==> n in c.parent && files[n].content == Unread && files[n].perm == c.parent[n].perm))
  }

  function Bare(c: Inputs): map<string, File> {
    map n | n in c.parent :: File(n, Unread, c.parent[n].perm, None)
  }

  method RemoveDeleted(c: Inputs) returns (files: map<string, File>)
    ensures forall n {:trigger n in files} :: n in files <==> n in c.parent && !Deleted(c, n)
    ensures forall n {:trigger files[n]} :: n in files ==> files[n] == File(n, Unread, c.parent[n].perm, None)
  {
    files := Bare(c);
    var names := ListOf(set n | n in c.entries && Deleted(c, n));
    for i := 0 to |names|
      invariant files == Bare(c) - Elements(names[..i])
    {
      assert names[..i + 1] == names[..i] + [names[i]];
      files := files - {names[i]};
    }
    assert names[..|names|] == names;
    assert forall n :: n in Elements(names) <==> Deleted(c, n);
  }

  method ReadChanged(c: Inputs) returns (r: Attempt<map<string, File>>)
    ensures r.Done? <==> forall n :: Changed(c, n) ==> n in c.disk
    ensures r.Done? ==> Read(c, r.value)
  {
    var files := RemoveDeleted(c);
    var names := ListOf(set n | n in c.entries && Changed(c, n));
    for i := 0 to |names|
      invariant forall n {:trigger n in files} :: n in files <==> n in names[..i] || (n in c.parent && !Deleted(c, n))
      invariant forall n {:trigger files[n]} :: n in files ==>
        && files[n].name == n && files[n].oldName == None
        && (n in names[..i] ==> n in c.disk && files[n].content == FromDisk(c.disk[n].data))
        && (n !in names[..i] ==> n in c.parent && files[n].content == Unread && files[n].perm == c.parent[n].perm)
      invariant forall n :: n in names[..i] ==> n in c.disk
    {
      var n := names[i];
      assert names[..i + 1] == names[..i] + [n];
      assert n in Elements(names) && Changed(c, n);
      if n !in c.disk {
        return Refused(Unreadable(n));
      }
      files := files[n := File(n, FromDisk(c.disk[n].data), if n in files then files[n].perm else Plain, None)];
    }
    assert names[..|names|] == names;
    forall n ensures n in names <==> Changed(c, n) {
      assert n in names <==> n in Elements(names);
    }
    r := Done(files);
  }

  /** With the renames of the rows seen applied. */
  ghost predicate RenamedTo(c: Inputs, seen: set<string>, files: map<string, File>) {
    && (forall n {:trigger n in files} :: n in files <==>
          if Chosen(c, n) then
            !c.entries[n].deleted
              && (n in c.parent || ContentChanged(c.entries[n]) || (n in seen && c.entries[n].origname.Some?))
          else n in c.parent && (n in c.entries || !MovedAway(c, seen, n)))
    && (forall n {:trigger files[n]} :: n in files ==>
          && files[n].name == n
          && files[n].oldName == (if n in seen then OldNameOf(c, n) else None)
          && files[n].content == (if Changed(c, n) && n in c.disk then FromDisk(c.disk[n].data) else Unread)
          && (!Chosen(c, n) ==> n in c.parent && files[n].perm == c.parent[n].perm))
  }

  /** One row's rename: the new name says where it came from, the old name goes unless another row has it. */
  function RenameOne(c: Inputs, files: map<string, File>, n: string): (r: map<string, File>)
    requires n in c.entries
  {
    if !Chosen(c, n) || c.entries[n].origname == None then files
    else
      var was := c.entries[n].origname.value;
      if c.entries[n].deleted then
        (if was in c.entries then files else files - {was}) - {n}
      else
        var entry := if n in files then files[n]
          else File(n, Unread, if was in files then files[was].perm else Plain, None);
        var added := files[n := entry.(oldName := Some(was))];
        if was in c.entries then added else added - {was}
  }

  lemma {:induction false} MoreMovedAway(c: Inputs, seen: set<string>, n: string, x: string)
    requires n in c.entries
    ensures MovedAway(c, seen + {n}, x) <==> MovedAway(c, seen, x) || (Chosen(c, n) && c.entries[n].origname == Some(x))
  {
    if MovedAway(c, seen, x) {
      var m :| m in seen && Chosen(c, m) && c.entries[m].origname == Some(x);
      assert m in seen + {n};
    }
    assert c.entries[n].origname == Some(x) ==> n in seen + {n};
  }

  lemma {:induction false} RenameGone(c: Inputs, seen: set<string>, files: map<string, File>, n: string)
    requires RenamedTo(c, seen, files) && n in c.entries && n !in seen
    requires !Chosen(c, n) || c.entries[n].deleted || c.entries[n].origname == None
    ensures RenamedTo(c, seen + {n}, RenameOne(c, files, n))
  {
    forall x
      ensures MovedAway(c, seen + {n}, x) <==>
                MovedAway(c, seen, x) || (Chosen(c, n) && c.entries[n].origname == Some(x))
    {
      MoreMovedAway(c, seen, n, x);
    }
  }

  lemma {:induction false} RenameLive(c: Inputs, seen: set<string>, files: map<string, File>, n: string)
    requires RenamedTo(c, seen, files) && Chosen(c, n) && n !in seen && !c.entries[n].deleted
    requires c.entries[n].origname.Some? && c.entries[n].origname.value != n
    ensures RenamedTo(c, seen + {n}, RenameOne(c, files, n))
  {
    forall x
      ensures MovedAway(c, seen + {n}, x) <==>
                MovedAway(c, seen, x) || (Chosen(c, n) && c.entries[n].origname == Some(x))
    {
      MoreMovedAway(c, seen, n, x);
    }
  }

  method ApplyRenames(c: Inputs, read: map<string, File>) returns (files: map<string, File>)
    requires Read(c, read)
    requires forall m :: m in c.entries ==> c.entries[m].origname != Some(m)
    ensures RenamedTo(c, c.entries.Keys, files)
  {
    files := read;
    var rest := c.entries.Keys;
    while rest != {}
      invariant rest <= c.entries.Keys
      invariant RenamedTo(c, c.entries.Keys - rest, files)
      decreases |rest|
    {
      var n :| n in rest;
      if !Chosen(c, n) || c.entries[n].deleted || c.entries[n].origname == None {
        RenameGone(c, c.entries.Keys - rest, files, n);
      } else {
        RenameLive(c, c.entries.Keys - rest, files, n);
      }
      assert c.entries.Keys - rest + {n} == c.entries.Keys - (rest - {n});
      files := RenameOne(c, files, n);
      rest := rest - {n};
    }
    assert c.entries.Keys - rest == c.entries.Keys;
  }

  /**
   * One file not read from disk: its committed content, if its file is there to vouch for it,
   * or its artifact's name.
   */
  method UnchangedFile(c: Inputs, entry: File) returns (r: Attempt<File>)
    requires (entry.name in c.entries || entry.name in c.parent) && !Changed(c, entry.name)
    requires entry.name !in c.entries ==> entry.oldName == None
    ensures r.Done? <==> Loadable(c, entry.name) && (Chosen(c, entry.name) ==> c.entries[entry.name].rid != 0)
    ensures r.Done? ==> r.value == entry.(content := ContentOf(c, entry.name))
  {
    var n := entry.name;
    if Chosen(c, n) && n !in c.disk {
      return Refused(MissingFile(n));
    }
    if n !in c.entries && !c.covers(n) {
      return Done(File(n, Carried(c.parent[n].uuid), entry.perm, None));
    }
    var rid := if n in c.entries then c.entries[n].rid else c.parent[n].rid;
    if rid == 0 {
      return Refused(NoBlob(n));
    }
    r := Done(entry.(content := FromBlob(rid)));
  }

  /** Renamed, with the content of the names loaded so far filled in. */
  ghost predicate LoadedTo(c: Inputs, seen: set<string>, files: map<string, File>) {
    && (forall n {:trigger n in files} :: n in files <==> Emits(c, n))
    && (forall n {:trigger files[n]} :: n in files ==>
          && files[n].name == n && files[n].oldName == OldNameOf(c, n)
          && (n in seen || Changed(c, n) ==> files[n].content == ContentOf(c, n))
          && (!Chosen(c, n) ==> n in c.parent && files[n].perm == c.parent[n].perm))
  }

  lemma {:induction false} LoadStart(c: Inputs, files: map<string, File>)
    requires RenamedTo(c, c.entries.Keys, files)
    requires forall n :: Changed(c, n) ==> n in c.disk
    ensures LoadedTo(c, {}, files)
  {
  }

  lemma {:induction false} LoadMore(c: Inputs, seen: set<string>, files: map<string, File>, n: string)
    requires LoadedTo(c, seen, files) && n in files
    ensures Changed(c, n) ==> LoadedTo(c, seen + {n}, files)
    ensures !Changed(c, n) ==> LoadedTo(c, seen + {n}, files[n := files[n].(content := ContentOf(c, n))])
  {
  }

  lemma {:induction false} EmittedTracked(c: Inputs, n: string)
    requires Emits(c, n)
    ensures n in c.entries || n in c.parent
    ensures Chosen(c, n) && !Changed(c, n) ==> c.entries[n].rid != 0
  {
  }

  ghost predicate AllLoadable(c: Inputs, names: set<string>) {
    forall n {:trigger Loadable(c, n)} :: n in names ==> Loadable(c, n)
  }

  lemma {:induction false} LoadableCommits(c: Inputs, files: map<string, File>)
    requires LoadedTo(c, {}, files)
    ensures CanCommit(c) <==> AllLoadable(c, files.Keys)
  {
    forall n ensures n in files <==> Emits(c, n) {
    }
  }

  lemma {:induction false} OneUnloadable(c: Inputs, names: set<string>, n: string)
    requires n in names && !Loadable(c, n)
    ensures !AllLoadable(c, names)
  {
  }

  method LoadUnchanged(c: Inputs, renamed: map<string, File>) returns (r: Attempt<map<string, File>>)
    requires RenamedTo(c, c.entries.Keys, renamed)
    requires forall n :: Changed(c, n) ==> n in c.disk
    ensures r.Done? <==> CanCommit(c)
    ensures r.Done? ==> LoadedTo(c, r.value.Keys, r.value)
  {
    LoadStart(c, renamed);
    LoadableCommits(c, renamed);
    r := LoadEach(c, renamed);
  }

  method LoadEach(c: Inputs, renamed: map<string, File>) returns (r: Attempt<map<string, File>>)
    requires LoadedTo(c, {}, renamed)
    requires forall n :: Changed(c, n) ==> n in c.disk
    ensures r.Done? <==> AllLoadable(c, renamed.Keys)
    ensures r.Done? ==> LoadedTo(c, r.value.Keys, r.value)
  {
    var files := renamed;
    var names := ListOf(renamed.Keys);
    for i := 0 to |names|
      invariant files.Keys == renamed.Keys
      invariant LoadedTo(c, Elements(names[..i]), files) && AllLoadable(c, Elements(names[..i]))
    {
      assert Elements(names[..i + 1]) == Elements(names[..i]) + {names[i]} by {
        assert names[..i + 1] == names[..i] + [names[i]];
      }
      assert names[i] in Elements(names);
      var done := LoadOne(c, files, names[i], Elements(names[..i]));
      if done.Refused? {
        OneUnloadable(c, renamed.Keys, names[i]);
        return Refused(done.why);
      }
      files := done.value;
    }
    assert names[..|names|] == names;
    r := Done(files);
  }

  method LoadOne(
    c: Inputs, files: map<string, File>, n: string, ghost seen: set<string>) returns (r: Attempt<map<string, File>>)
    requires LoadedTo(c, seen, files) && n in files
    requires Changed(c, n) ==> n in c.disk
    ensures r.Done? <==> Loadable(c, n)
    ensures r.Done? ==> r.value.Keys == files.Keys && LoadedTo(c, seen + {n}, r.value)
  {
    LoadMore(c, seen, files, n);
    EmittedTracked(c, n);
    if Changed(c, n) {
      return Done(files);
    }
    var file := UnchangedFile(c, files[n]);
    if file.Refused? {
      return Refused(file.why);
    }
    r := Done(files[n := file.value]);
  }

  /** Every chosen file takes its permission anew. */
  method RestatPerms(c: Inputs, loaded: map<string, File>) returns (files: map<string, File>)
    requires forall n :: n in loaded && Chosen(c, n) ==> n in c.disk
    ensures files.Keys == loaded.Keys
    ensures forall n {:trigger files[n]} :: n in files ==>
              files[n] == if Chosen(c, n) then loaded[n].(perm := LivePerm(c, n)) else loaded[n]
  {
    files := loaded;
    var rest := c.entries.Keys;
    while rest != {}
      invariant rest <= c.entries.Keys && files.Keys == loaded.Keys
      invariant forall n {:trigger files[n]} :: n in files ==>
        files[n] == if Chosen(c, n) && n !in rest then loaded[n].(perm := LivePerm(c, n)) else loaded[n]
      decreases |rest|
    {
      var n :| n in rest;
      rest := rest - {n};
      if n in files && Chosen(c, n) {
        files := files[n := files[n].(perm := if c.readsPerms then c.disk[n].perm else c.entries[n].perm)];
      }
    }
  }

  lemma {:induction false} RestatCommits(c: Inputs, loaded: map<string, File>, files: map<string, File>)
    requires LoadedTo(c, loaded.Keys, loaded) && files.Keys == loaded.Keys
    requires forall n {:trigger files[n]} :: n in files ==>
      files[n] == if Chosen(c, n) then loaded[n].(perm := LivePerm(c, n)) else loaded[n]
    ensures IsCommit(c, files)
  {
    forall n ensures n in files <==> Emits(c, n) {
      assert n in loaded <==> Emits(c, n);
    }
  }

  lemma {:induction false} LoadedOnDisk(c: Inputs, seen: set<string>, loaded: map<string, File>)
    requires LoadedTo(c, seen, loaded) && CanCommit(c)
    ensures forall n :: n in loaded && Chosen(c, n) ==> n in c.disk
  {
    forall n | n in loaded && Chosen(c, n) ensures n in c.disk {
      assert Emits(c, n);
    }
  }

  /**
   * The files of a commit: refused exactly when one of them cannot be read,
   * and otherwise the same whatever order rows and files are gone through in.
   */
  method BuildCommitFiles(c: Inputs)
    returns (r: Attempt<map<string, File>>)
    requires forall m :: m in c.entries ==> c.entries[m].origname != Some(m)
    ensures r.Done? <==> CanCommit(c)
    ensures r.Done? ==> IsCommit(c, r.value)
    ensures r.Done? ==> forall n :: n in r.value && Chosen(c, n) ==>
              && !c.entries[n].deleted && n in c.disk
              && r.value[n].content == (if c.entries[n].rid == 0 || c.entries[n].chnged > 0
                                        then FromDisk(c.disk[n].data) else FromBlob(c.entries[n].rid))
              && r.value[n].perm == (if c.readsPerms then c.disk[n].perm else c.entries[n].perm)
              && r.value[n].oldName == c.entries[n].origname
    ensures r.Done? ==> forall n :: Chosen(c, n) && !c.entries[n].deleted && c.entries[n].rid == 0 ==> n in r.value
  {
    var read := ReadChanged(c);
    ChangedEmitted(c);
    if read.Refused? {
      return Refused(read.why);
    }
    ReadIsStart(c, read.value);
    var renamed := ApplyRenames(c, read.value);
    var loaded := LoadUnchanged(c, renamed);
    if loaded.Refused? {
      return Refused(loaded.why);
    }
    LoadedOnDisk(c, loaded.value.Keys, loaded.value);
    var files := RestatPerms(c, loaded.value);
    RestatCommits(c, loaded.value, files);
    ContentAsRecorded(c, files);
    r := Done(files);
  }

  lemma {:induction false} ChangedEmitted(c: Inputs)
    ensures CanCommit(c) ==> forall n :: Changed(c, n) ==> n in c.disk
  {
    if CanCommit(c) {
      forall n | Changed(c, n) ensures n in c.disk {
        assert Emits(c, n);
      }
    }
  }

  lemma {:induction false} ReadIsStart(c: Inputs, files: map<string, File>)
    requires Read(c, files)
    ensures RenamedTo(c, {}, files)
  {
  }
}
