/**
 Records of the vmdirty journal and the Tier 2 store over it, as values (src/vmdirty.rs,
 src/tier2.rs).  The byte format is in `Vmdirty`, the object with its file in `Tier2s`.
 */
module Journal {
  import opened Wrappers
  import opened Binary
  import opened Pages

  datatype MetaOp = OpCreate | OpRemove | OpResize(newSize: nat) | OpRename(newName: Name)

  datatype Record =
    | DataRec(seqNum: nat, name: Name, page: nat, data: Bytes)
    | MetaRec(seqNum: nat, name: Name, op: MetaOp)
    | MarkerRec(commitSeq: nat, pageCount: nat)

  /** Name to (page to whatever is kept for it). */
  type PageIndex<T> = map<Name, map<nat, T>>

  predicate Has<T>(index: PageIndex<T>, name: Name, page: nat) {
    name in index && page in index[name]
  }

  function Put<T>(index: PageIndex<T>, name: Name, page: nat, x: T): PageIndex<T> {
    index[name := (if name in index then index[name] else map[])[page := x]]
  }

  function RenameKey<T>(index: PageIndex<T>, src: Name, dst: Name): PageIndex<T> {
    if src == dst || src !in index then index else (index - {src})[dst := index[src]]
  }

  /** Keeps only the pages that begin below `n`. */
  function PurgeBeyond<T>(index: PageIndex<T>, name: Name, n: nat, ps: nat): PageIndex<T> {
    if name !in index then index
    else index[name := map p | p in index[name] && Start(p, ps) < n :: index[name][p]]
  }

  /** What a page's record holds: the page cut at the entry's logical end. */
  function ClampTail(data: Bytes, page: nat, ps: nat, logical: nat): Bytes {
    data[..Min(Min(Max(logical - Start(page, ps), 0), ps), |data|)]
  }

  /** A Tier 2 store: the records appended so far, and the latest data of every indexed page. */
  datatype T2 = T2(nextSeq: nat, log: seq<Record>, index: PageIndex<Bytes>, dataRecords: nat) {

    function AppendData(name: Name, page: nat, data: Bytes): T2 {
      T2(nextSeq + 1, log + [DataRec(nextSeq, name, page, data)], Put(index, name, page, data), dataRecords + 1)
    }

    function JournalOp(name: Name, op: MetaOp): T2 {
      this.(nextSeq := nextSeq + 1, log := log + [MetaRec(nextSeq, name, op)])
    }

    /** The sequence number last assigned; 0 before the first. */
    function LastSeq(): nat {
      if nextSeq == 0 then 0 else nextSeq - 1
    }

    function CommitMarker(): T2 {
      this.(log := log + [MarkerRec(LastSeq(), PageTotal(index))])
    }

    function Purge(name: Name): T2 {
      this.(index := index - {name})
    }

    function Rename(src: Name, dst: Name): T2 {
      this.(index := RenameKey(index, src, dst))
    }

    function PurgePagesBeyond(name: Name, n: nat, ps: nat): T2 {
      this.(index := PurgeBeyond(index, name, n, ps))
    }
  }

  /** Number of distinct indexed pages. */
  function PageTotal<T>(index: PageIndex<T>): nat {
    |set n, p | n in index && p in index[n] :: (n, p)|
  }

  function NewT2(): T2 {
    T2(1, [], map[], 0)
  }
}
