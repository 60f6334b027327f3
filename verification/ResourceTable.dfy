/**
 Reference-counted runtimes (internal/upstream/registry.go).

 The five maps of the registry are one table whose keys carry their kind.  A `Ref` is
 one reference that somebody owns, together with the runtime it was bound to.
 */
module ResourceTable {
  import opened Wrappers

  datatype Key =
    | Endpoint(identity: string)
    | Transport(profile: nat)
    | Selection(upstream: string, algorithm: nat)
    | Health(endpoint: string, policy: nat, transport: nat)
    | Budget(owner: string, limits: nat)

  datatype Ref = Ref(key: Key, runtime: nat)

  datatype Entry = Entry(runtime: nat, refs: nat)

  /** The entries, and the identity of the next runtime to be created. */
  datatype Table = Table(entries: map<Key, Entry>, next: nat)

  function Acquire(t: Table, k: Key): (Table, Ref) {
    if k in t.entries then
      var e := t.entries[k];
      (t.(entries := t.entries[k := Entry(e.runtime, e.refs + 1)]), Ref(k, e.runtime))
    else
      (Table(t.entries[k := Entry(t.next, 1)], t.next + 1), Ref(k, t.next))
  }

  /** One reference is dropped; the entry goes with the last one.  None is the underflow panic. */
  function Release(t: Table, k: Key): Option<Table> {
    if k !in t.entries || t.entries[k].refs == 0 then None
    else if t.entries[k].refs == 1 then Some(t.(entries := t.entries - {k}))
    else Some(t.(entries := t.entries[k := Entry(t.entries[k].runtime, t.entries[k].refs - 1)]))
  }

  function AcquireAll(t: Table, keys: seq<Key>): (Table, seq<Ref>) {
    if keys == [] then (t, [])
    else
      var (u, refs) := AcquireAll(t, keys[..|keys| - 1]);
      var (v, ref) := Acquire(u, keys[|keys| - 1]);
      (v, refs + [ref])
  }

  function ReleaseAll(t: Table, refs: seq<Ref>): Option<Table> {
    if refs == [] then Some(t)
    else
      match ReleaseAll(t, refs[..|refs| - 1])
      case None => None
      case Some(u) => Release(u, refs[|refs| - 1].key)
  }

  // ----- what the table stands for

  /** The count behind a reference; zero when its key is not bound to its runtime. */
  function RefsOf(t: Table, r: Ref): nat {
    if r.key in t.entries && t.entries[r.key].runtime == r.runtime then t.entries[r.key].refs else 0
  }

  /**
   The table counts the owned references `m`: an entry exists exactly when somebody owns
   a reference to it, it holds that many references, and all of them are bound to its runtime.
   */
  ghost predicate Counts(t: Table, m: multiset<Ref>) {
    && (forall r: Ref :: m[r] == RefsOf(t, r))
    && (forall k | k in t.entries :: t.entries[k].refs > 0 && t.entries[k].runtime < t.next)
  }

  lemma AcquireCounts(t: Table, m: multiset<Ref>, k: Key)
    requires Counts(t, m)
    ensures Counts(Acquire(t, k).0, m + multiset{Acquire(t, k).1}) && Acquire(t, k).1.key == k
  {
    var (u, ref) := Acquire(t, k);
    forall r: Ref ensures (m + multiset{ref})[r] == RefsOf(u, r) {
      assert m[r] == RefsOf(t, r);
    }
  }

  lemma ReleaseCounts(t: Table, m: multiset<Ref>, ref: Ref)
    requires Counts(t, m) && ref in m
    ensures Release(t, ref.key).Some? && Counts(Release(t, ref.key).value, m - multiset{ref})
    ensures Release(t, ref.key).value.next == t.next
  {
    assert m[ref] > 0;
    var u := Release(t, ref.key).value;
    forall r: Ref ensures (m - multiset{ref})[r] == RefsOf(u, r) {
      assert m[r] == RefsOf(t, r);
    }
  }

  lemma BagSnoc(m: multiset<Ref>, refs: seq<Ref>, ref: Ref)
    ensures m + multiset(refs + [ref]) == m + multiset(refs) + multiset{ref}
  {
  }

  lemma AcquireAllStep(t: Table, keys: seq<Key>)
    requires keys != []
    ensures var init, k := keys[..|keys| - 1], keys[|keys| - 1];
            var u := AcquireAll(t, init).0;
            AcquireAll(t, keys) == (Acquire(u, k).0, AcquireAll(t, init).1 + [Acquire(u, k).1])
  {
  }

  lemma {:induction false} AcquireAllCounts(t: Table, m: multiset<Ref>, keys: seq<Key>)
    requires Counts(t, m)
    ensures Counts(AcquireAll(t, keys).0, m + multiset(AcquireAll(t, keys).1))
  {
    hide Counts, Acquire;
    if keys != [] {
      var init, k := keys[..|keys| - 1], keys[|keys| - 1];
      AcquireAllStep(t, keys);
      AcquireAllCounts(t, m, init);
      hide AcquireAll;
      var (u, refs) := AcquireAll(t, init);
      AcquireCounts(u, m + multiset(refs), k);
      BagSnoc(m, refs, Acquire(u, k).1);
    } else {
      assert m + multiset([]) == m;
    }
  }

  /** One reference per key, in the order of the keys. */
  lemma {:induction false} AcquireAllKeys(t: Table, keys: seq<Key>)
    ensures |AcquireAll(t, keys).1| == |keys|
    ensures forall i | 0 <= i < |keys| :: AcquireAll(t, keys).1[i].key == keys[i]
  {
    if keys != [] { AcquireAllKeys(t, keys[..|keys| - 1]); }
  }

  /** What is owned can be given back: no underflow, and the rest is still counted. */
  lemma {:induction false} ReleaseAllCounts(t: Table, m: multiset<Ref>, refs: seq<Ref>)
    requires Counts(t, m + multiset(refs))
    ensures ReleaseAll(t, refs).Some? && Counts(ReleaseAll(t, refs).value, m)
    ensures ReleaseAll(t, refs).value.next == t.next
    decreases |refs|
  {
    hide Counts, Release;
    if refs != [] {
      var init, ref := refs[..|refs| - 1], refs[|refs| - 1];
      assert refs == init + [ref];
      assert m + multiset(refs) == m + multiset{ref} + multiset(init);
      ReleaseAllCounts(t, m + multiset{ref}, init);
      ReleaseCounts(ReleaseAll(t, init).value, m + multiset{ref}, ref);
      assert m + multiset{ref} - multiset{ref} == m;
    } else {
      assert m + multiset(refs) == m;
    }
  }

  /** The owned references determine the entries. */
  lemma CountsUnique(t: Table, u: Table, m: multiset<Ref>)
    requires Counts(t, m) && Counts(u, m)
    ensures t.entries == u.entries
  {
    forall k | k in t.entries ensures k in u.entries && u.entries[k] == t.entries[k] {
      assert m[Ref(k, t.entries[k].runtime)] == t.entries[k].refs;
    }
    forall k | k in u.entries ensures k in t.entries {
      assert m[Ref(k, u.entries[k].runtime)] == u.entries[k].refs;
    }
  }

  /** Acquiring and giving back leaves every entry, count and runtime as it was. */
  lemma {:induction false} AcquireReleaseRestores(t: Table, m: multiset<Ref>, keys: seq<Key>)
    requires Counts(t, m)
    ensures var (u, refs) := AcquireAll(t, keys);
            ReleaseAll(u, refs).Some? && ReleaseAll(u, refs).value.entries == t.entries
  {
    hide Counts, AcquireAll, ReleaseAll;
    var (u, refs) := AcquireAll(t, keys);
    AcquireAllCounts(t, m, keys);
    ReleaseAllCounts(u, m, refs);
    CountsUnique(t, ReleaseAll(u, refs).value, m);
  }

  /** Nobody owns anything exactly when all maps are empty. */
  lemma NoOwnersIffEmpty(t: Table, m: multiset<Ref>)
    requires Counts(t, m)
    ensures m == multiset{} <==> t.entries == map[]
  {
    if t.entries != map[] {
      assert exists k :: k in t.entries by { assert t.entries.Keys != {}; }
      var k :| k in t.entries;
      assert m[Ref(k, t.entries[k].runtime)] > 0;
    }
    if m != multiset{} {
      var r :| r in m;
      assert m[r] > 0;
    }
  }

  /** An owned reference finds its own runtime in the table. */
  lemma OwnedIsBound(t: Table, m: multiset<Ref>, r: Ref)
    requires Counts(t, m) && r in m
    ensures r.key in t.entries && t.entries[r.key].runtime == r.runtime && t.entries[r.key].refs == m[r] > 0
  {
    assert m[r] > 0;
  }
}
