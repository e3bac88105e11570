/**
 * The population directory, as a map from record names to file contents.
 * `Live(i)` is the record `Individual<i>.xml`, `Temp(i)` the transient
 * backup `Temp_Individual<i>.xml`, and `Active` the controller file that
 * `bestIndividual` exports to the robot directory. Each file operation
 * fails on a missing source file; the Java code only logs that failure, so
 * here it leaves the store unchanged.
 */
module Storage {
  import opened Wrappers

  type Blob = seq<bv8>

  datatype Key = Live(index: int) | Temp(index: int) | Active

  type Store = map<Key, Blob>

  /** The contents of record k, if it exists. */
  function Get(st: Store, k: Key): Option<Blob>
  {
    if k in st then Some(st[k]) else None
  }

  /** `copyFile`: dst receives src's bytes; a missing src throws before dst is opened. */
  function Copy(st: Store, src: Key, dst: Key): (r: Store)
    requires src != dst
    ensures src in st ==> Get(r, dst) == Get(st, src)
    ensures forall k :: k != dst || src !in st ==> Get(r, k) == Get(st, k)
  {
    if src in st then st[dst := st[src]] else st
  }

  /** `File.delete`: removing a missing file reports failure and changes nothing. */
  function Delete(st: Store, k: Key): (r: Store)
    ensures Get(r, k) == None
    ensures forall k' :: k' != k ==> Get(r, k') == Get(st, k')
  {
    st - {k}
  }

  /**
   * `File.renameTo`: moves src to dst; a missing src changes nothing. Whether
   * an existing dst is replaced depends on the platform; the protocol only
   * renames onto `Live` records it has just deleted, where the two agree.
   */
  function Rename(st: Store, src: Key, dst: Key): (r: Store)
    requires src != dst
    ensures src in st ==> Get(r, dst) == Get(st, src) && Get(r, src) == None
    ensures forall k :: (k != src && k != dst) || src !in st ==> Get(r, k) == Get(st, k)
  {
    if src in st then (st - {src})[dst := st[src]] else st
  }

  /**
   * The copies `saveBest` makes: record `Live(sources[i - 1])` is copied to
   * `Temp(i)` for i = 1 .. |sources|, in that order.
   */
  function Snapshot(st: Store, sources: seq<int>): Store
    decreases |sources|
  {
    if sources == [] then st
    else Copy(Snapshot(st, sources[..|sources| - 1]), Live(sources[|sources| - 1]), Temp(|sources|))
  }

  /** The deletions of `killWeaklings`: `Live(i)` for i = 1 .. m. */
  function Purge(st: Store, m: int): Store
    decreases m
  {
    if m <= 0 then st else Delete(Purge(st, m - 1), Live(m))
  }

  /** The renames of `loadBest`: `Temp(i)` to `Live(i)` for i = 1 .. m. */
  function Restore(st: Store, m: int): Store
    decreases m
  {
    if m <= 0 then st else Rename(Restore(st, m - 1), Temp(m), Live(m))
  }

  /**
   * The whole durable side of one generation change: snapshot the survivors'
   * records, delete the live records `1 .. size`, then rename the snapshots
   * back into the live namespace.
   */
  function Protocol(st: Store, sources: seq<int>, size: int): Store
  {
    Restore(Purge(Snapshot(st, sources), size), |sources|)
  }

  /** After the snapshot, `Temp(i)` holds the record of `Live(sources[i - 1])`; nothing else changed. */
  lemma {:induction false} SnapshotAt(st: Store, sources: seq<int>, k: Key)
    ensures Get(Snapshot(st, sources), k) ==
      if k.Temp? && 1 <= k.index <= |sources| && Live(sources[k.index - 1]) in st
      then Some(st[Live(sources[k.index - 1])])
      else Get(st, k)
    decreases |sources|
  {
    if sources != [] {
      var init := sources[..|sources| - 1];
      SnapshotAt(st, init, k);
      SnapshotAt(st, init, Live(sources[|sources| - 1]));
    }
  }

  /** After the purge, `Live(1 .. m)` are gone; nothing else changed. */
  lemma {:induction false} PurgeAt(st: Store, m: int, k: Key)
    ensures Get(Purge(st, m), k) == if k.Live? && 1 <= k.index <= m then None else Get(st, k)
    decreases m
  {
    if m > 0 {
      PurgeAt(st, m - 1, k);
    }
  }

  /**
   * After the renames, `Temp(1 .. m)` are gone and `Live(i)` holds what
   * `Temp(i)` held, where there was one; nothing else changed.
   */
  lemma {:induction false} RestoreAt(st: Store, m: int, k: Key)
    ensures Get(Restore(st, m), k) ==
      if k.Live? && 1 <= k.index <= m && Temp(k.index) in st then Some(st[Temp(k.index)])
      else if k.Temp? && 1 <= k.index <= m then None
      else Get(st, k)
    decreases m
  {
    if m > 0 {
      RestoreAt(st, m - 1, k);
      RestoreAt(st, m - 1, Temp(m));
    }
  }

  /**
   * The effect of the whole protocol on any record: `Live(i)` for a survivor
   * slot i holds the record snapshotted from `Live(sources[i - 1])`, the other
   * live records up to `size` are gone, no transient record of a survivor
   * slot remains, and every other record is untouched.
   */
  lemma ProtocolAt(st: Store, sources: seq<int>, size: int, k: Key)
    requires |sources| <= size
    ensures Get(Protocol(st, sources, size), k) ==
      if k.Live? && 1 <= k.index <= |sources| then
        (if Live(sources[k.index - 1]) in st then Some(st[Live(sources[k.index - 1])]) else Get(st, Temp(k.index)))
      else if k.Live? && 1 <= k.index <= size then None
      else if k.Temp? && 1 <= k.index <= |sources| then None
      else Get(st, k)
  {
    var n := |sources|;
    var saved := Snapshot(st, sources);
    var purged := Purge(saved, size);
    RestoreAt(purged, n, k);
    PurgeAt(saved, size, k);
    SnapshotAt(st, sources, k);
    if k.Live? && 1 <= k.index <= n {
      PurgeAt(saved, size, Temp(k.index));
      SnapshotAt(st, sources, Temp(k.index));
    }
  }

  /** The numbers 1 .. n: what `saveBest` as written copies from. */
  function Positions(n: nat): seq<int>
  {
    seq(n, i requires 0 <= i < n => i + 1)
  }

  /**
   * The protocol as `saveBest` writes it, copying `Live(i)` itself: with no
   * failed file operation, each `Live(i)` of a survivor slot gets back its
   * own pre-advance bytes, `Live(n + 1 .. size)` are gone and no
   * `Temp(1 .. n)` remains.
   */
  lemma AsWrittenRestoresPositions(st: Store, n: nat, size: int)
    requires n <= size
    ensures forall i :: 1 <= i <= n && Live(i) in st ==> Get(Protocol(st, Positions(n), size), Live(i)) == Some(st[Live(i)])
    ensures forall i :: n < i <= size ==> Get(Protocol(st, Positions(n), size), Live(i)) == None
    ensures forall i :: 1 <= i <= n ==> Get(Protocol(st, Positions(n), size), Temp(i)) == None
  {
    forall i | 1 <= i <= size
      ensures Live(i) in st && i <= n ==> Get(Protocol(st, Positions(n), size), Live(i)) == Some(st[Live(i)])
      ensures n < i ==> Get(Protocol(st, Positions(n), size), Live(i)) == None
      ensures i <= n ==> Get(Protocol(st, Positions(n), size), Temp(i)) == None
    {
      ProtocolAt(st, Positions(n), size, Live(i));
      ProtocolAt(st, Positions(n), size, Temp(i));
    }
  }

  /**
   * The protocol copying from the survivors' former indices: `Live(i)` gets
   * the pre-advance record of the survivor now numbered i.
   */
  lemma SurvivorRecordsFollowSurvivors(st: Store, former: seq<int>, size: int)
    requires |former| <= size
    ensures forall i :: 1 <= i <= |former| && Live(former[i - 1]) in st ==>
      Get(Protocol(st, former, size), Live(i)) == Some(st[Live(former[i - 1])])
    ensures forall i :: |former| < i <= size ==> Get(Protocol(st, former, size), Live(i)) == None
    ensures forall i :: 1 <= i <= |former| ==> Get(Protocol(st, former, size), Temp(i)) == None
  {
    forall i | 1 <= i <= size
      ensures i <= |former| && Live(former[i - 1]) in st ==>
        Get(Protocol(st, former, size), Live(i)) == Some(st[Live(former[i - 1])])
      ensures |former| < i ==> Get(Protocol(st, former, size), Live(i)) == None
      ensures i <= |former| ==> Get(Protocol(st, former, size), Temp(i)) == None
    {
      ProtocolAt(st, former, size, Live(i));
      ProtocolAt(st, former, size, Temp(i));
    }
  }
}
