/** The table of tracked files: rows by id, no two under one name. */
module FileTable {
  import opened Basics
  import opened SparseRecord

  /** Where a row is: under a file's name, or set aside under a placeholder no file can have. */
  datatype Place = At(name: string) | Parked(id: nat)

  datatype Slot = Slot(place: Place, row: Row)

  function Get<V>(m: map<nat, V>, id: nat): Option<V> {
    if id in m then Some(m[id]) else None
  }

  /** UNIQUE(pathname, vid). */
  ghost predicate UniquePlaces(vfile: map<nat, Slot>) {
    forall i, j :: i in vfile && j in vfile && i != j ==> vfile[i].place != vfile[j].place
  }

  /** UPDATE of one row: refused where another row has the name. */
  method Update(vfile: map<nat, Slot>, id: nat, slot: Slot) returns (ok: bool, after: map<nat, Slot>)
    requires id in vfile && UniquePlaces(vfile)
    ensures ok <==> forall j :: j in vfile && j != id ==> vfile[j].place != slot.place
    ensures after == if ok then vfile[id := slot] else vfile
    ensures UniquePlaces(after)
  {
    ok := forall j :: j in vfile && j != id ==> vfile[j].place != slot.place;
    after := if ok then vfile[id := slot] else vfile;
  }
}
