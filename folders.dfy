/** A directory on disk, as both scripts see it through `os.listdir`,
    `os.path.isfile`, `os.path.getmtime`/`getctime`, `os.remove` and writing
    a file. Contents and sizes of files are not modelled. */
module Folders {

  /** One directory entry: whether it is a regular file (`os.path.isfile`)
      and its time stamp in whole seconds (the modification time in app.py,
      the inode change time in ngrok.py; both become the write time when a
      script saves a file, and nothing else in the model touches a file). */
  datatype Entry = Entry(regular: bool, stamp: int)

  /** The sweep rule of both scripts: a regular file whose age strictly
      exceeds `ttl` seconds at time `now`. */
  predicate Doomed(e: Entry, now: int, ttl: int)
  {
    e.regular && now - e.stamp > ttl
  }

  /** `names` is what `os.listdir` returns for a directory holding `m`:
      every entry once, in some order. */
  predicate IsListing(names: seq<string>, m: map<string, Entry>)
  {
    && (forall i, j :: 0 <= i < j < |names| ==> names[i] != names[j])
    && (forall k :: k in m ==> k in names)
    && (forall i :: 0 <= i < |names| ==> names[i] in m)
  }

  /** What is left of `m` once every doomed entry whose name is in `scope`
      has been removed, except those whose removal raises (`failing`). */
  function Purge(m: map<string, Entry>, scope: seq<string>, failing: set<string>, now: int, ttl: int): map<string, Entry>
  {
    map k | k in m && !(k in scope && k !in failing && Doomed(m[k], now, ttl)) :: m[k]
  }

  /** Purging a name first and then the rest of a scope is purging the
      whole scope. */
  lemma PurgeFront(m: map<string, Entry>, name: string, scope: seq<string>, failing: set<string>, now: int, ttl: int)
    ensures Purge(m, [name] + scope, failing, now, ttl)
         == Purge(if name in m && name !in failing && Doomed(m[name], now, ttl) then m - {name} else m, scope, failing, now, ttl)
  {
  }

  /** A whole directory swept once: every doomed entry is gone unless its
      removal raised; everything else is kept with its stamp. */
  function Swept(m: map<string, Entry>, failing: set<string>, now: int, ttl: int): map<string, Entry>
  {
    map k | k in m && !(k !in failing && Doomed(m[k], now, ttl)) :: m[k]
  }

  /** Purging over a full listing of the directory is the whole sweep. */
  lemma PurgeListing(m: map<string, Entry>, listing: seq<string>, failing: set<string>, now: int, ttl: int)
    requires IsListing(listing, m)
    ensures Purge(m, listing, failing, now, ttl) == Swept(m, failing, now, ttl)
  {
  }

  /** The sweep keeps exactly the entries that are not doomed, or whose
      removal failed, and it never changes a kept entry. */
  lemma SweptKeeps(m: map<string, Entry>, failing: set<string>, now: int, ttl: int, k: string)
    ensures k in Swept(m, failing, now, ttl) <==> k in m && (!Doomed(m[k], now, ttl) || k in failing)
    ensures k in Swept(m, failing, now, ttl) ==> Swept(m, failing, now, ttl)[k] == m[k]
  {
  }

  /** Sweeping twice at the same instant removes nothing more. */
  lemma SweptIdempotent(m: map<string, Entry>, failing: set<string>, now: int, ttl: int)
    ensures Swept(Swept(m, failing, now, ttl), failing, now, ttl) == Swept(m, failing, now, ttl)
  {
  }

  /** A later sweep with no failures keeps no more than an earlier one. */
  lemma SweptLaterKeepsLess(m: map<string, Entry>, now: int, later: int, ttl: int)
    requires now <= later
    ensures Swept(m, {}, later, ttl).Keys <= Swept(m, {}, now, ttl).Keys
  {
  }

  /** A directory whose entries a script lists, removes and writes. */
  class Folder {
    var entries: map<string, Entry>

    constructor (initial: map<string, Entry>)
      ensures entries == initial
    {
      entries := initial;
    }

    /** `os.remove` of an entry that is there and succeeds. */
    method Remove(name: string)
      requires name in entries
      modifies this
      ensures entries == old(entries) - {name}
    {
      entries := entries - {name};
    }

    /** Writing a file (`file.save`, `img.save`, `open(..., "wb")`):
        creates or overwrites a regular file stamped with the write time. */
    method Save(name: string, now: int)
      modifies this
      ensures entries == old(entries)[name := Entry(true, now)]
    {
      entries := entries[name := Entry(true, now)];
    }
  }
}
