/** Round trip of `YAML.load` and `YAML.store` (pysp/conf.py, pysp/yaml.py):
    loading a document whose `!include` tags reach other files, then
    storing the loaded tree, writes every reached file back with the
    content it was read with, the include tags written as the text
    `!include ref`, children before the files that include them. */
module RoundTrip {
  import opened Trees
  import opened Paths
  import opened Include
  import opened YamlStore

  /** A key `store` can find again through a dotted xpath: not empty, no
      dot, and not the marker key. */
  predicate SafeKey(k: string)
  {
    k != "" && '.' !in k && k != MARK
  }

  /** A decoded file `store` can split back into itself: dicts with safe
      keys, include tags only as mapping values (`collect_node` does not
      enter lists), and non-empty references (an empty one is falsy, so
      its mapping would be left inline). */
  predicate Splittable(t: Tree)
  {
    match t
    case Map(es) => Unique(es) && forall i :: 0 <= i < |es| ==> SafeKey(es[i].0) && Splittable(es[i].1)
    case List(xs) => forall i :: 0 <= i < |xs| ==> Plain(xs[i])
    case Include(ref) => ref != ""
    case _ => true
  }

  /** Every file in the store is a mapping that can be split back. */
  predicate FilesOk(files: Files)
  {
    forall p :: p in files ==> files[p].Map? && Splittable(files[p])
  }

  /** The dotted key path of a mapping that `store` can walk to. */
  predicate SafePath(xs: seq<string>)
  {
    forall i :: 0 <= i < |xs| ==> SafeKey(xs[i])
  }

  /** The files written back, by their reading: the files included below
      this one in document order, each after its own includes, then this
      file, as written. `fuel` follows `Load`'s. */
  function FileWrites(files: Files, path: string, fuel: nat): seq<Write>
    decreases fuel, 0
  {
    if path !in files || fuel == 0 then []
    else TreeWrites(files, Dirname(path), files[path], fuel - 1) + [Write(path, AsWritten(files[path]))]
  }

  function TreeWrites(files: Files, dir: string, t: Tree, fuel: nat): seq<Write>
    decreases fuel, 1, t, 1
  {
    match t
    case Include(ref) => FileWrites(files, PathJoin(dir, ref), fuel)
    case Map(es) => EntriesWrites(files, dir, t, |es|, fuel)
    case _ => []
  }

  function EntriesWrites(files: Files, dir: string, t: Tree, k: nat, fuel: nat): seq<Write>
    requires t.Map? && k <= |t.entries|
    decreases fuel, 1, t, 0, k
  {
    if k == 0 then []
    else EntriesWrites(files, dir, t, k - 1, fuel) + TreeWrites(files, dir, t.entries[k - 1].1, fuel)
  }

  /** The entries of a loaded mapping after the first `k` of them were
      stored: those hold their values as written, the rest as loaded. */
  function Written(e: Entries, es: Entries, k: nat): Entries
    requires k <= |es| <= |e|
  {
    seq(|e|, i requires 0 <= i < |e| => if i < k then (e[i].0, AsWritten(es[i].1)) else e[i])
  }

  /** `e` begins with the entries of the mapping `t`, each value resolved. */
  predicate ResolvedAs(e: Entries, t: Tree, files: Files, dir: string, fuel: nat)
    requires t.Map?
  {
    |t.entries| <= |e| &&
    forall i :: 0 <= i < |t.entries| ==>
      e[i].0 == t.entries[i].0 && Resolve(files, dir, t.entries[i].1, fuel) == Ok(e[i].1)
  }

  /** The round trip: storing a loaded document raises nothing, writes
      exactly the files `FileWrites` lists, each with the content it was
      read with, the top-level file last, and leaves the top-level file's
      content in memory. */
  lemma RoundTripStore(files: Files, path: string, fuel: nat)
    requires FilesOk(files) && Load(files, path, None, fuel).Ok?
    ensures path in files
    ensures var o := StoreRun(Load(files, path, None, fuel).value);
      && o == Outcome(AsWritten(files[path]), FileWrites(files, path, fuel), None)
      && |o.writes| > 0 && o.writes[|o.writes| - 1] == Write(path, AsWritten(files[path]))
      && (forall w :: w in o.writes ==> w.path in files && w.doc == AsWritten(files[w.path]))
  {
    var l := Load(files, path, None, fuel).value;
    var xs: seq<string> := [];
    assert At(l, xs) == Ok(l);
    LoadedBody(files, path, None, fuel, l, xs);
    var raw := files[path];
    assert Splittable(raw);
    TopStore(path, raw, l, xs, TreeWrites(files, Dirname(path), raw, fuel - 1));
    FileWritesFaithful(files, path, fuel);
  }

  /** The top-level file, once the nodes of its entries are stored: its
      own node comes last and writes it, and the marker is dropped. */
  lemma TopStore(path: string, raw: Tree, l: Tree, xs: seq<string>, ws: seq<Write>)
    requires raw.Map? && Splittable(raw) && xs == []
    ensures var n := |raw.entries|;
      var m := (MARK, Marker(path, None));
      var w := AsWritten(raw).entries;
      && l.Map? && |l.entries| == n + 1 && l.entries[n] == m
      && CollectEntries(l, Join(xs, '.'), n).Ok?
      && StoreAll(l, CollectEntries(l, Join(xs, '.'), n).value) == Outcome(Put(l, xs, Map(w + [m])), ws, None)
      ==>
      StoreRun(l) == Outcome(AsWritten(raw), ws + [Write(path, AsWritten(raw))], None)
  {
    var n := |raw.entries|;
    var m := (MARK, Marker(path, None));
    var w := AsWritten(raw).entries;
    if && l.Map? && |l.entries| == n + 1 && l.entries[n] == m
       && CollectEntries(l, Join(xs, '.'), n).Ok?
       && StoreAll(l, CollectEntries(l, Join(xs, '.'), n).value) == Outcome(Put(l, xs, Map(w + [m])), ws, None)
    {
      assert Join(xs, '.') == "";
      var body := CollectEntries(l, "", n).value;
      var node := YNode("", Str(path), Null);
      CollectMarked(l, "", n, path, None);
      StoreAllConcat(l, body, [node]);
      assert Put(l, xs, Map(w + [m])) == Map(w + [m]);
      NoMarkWritten(raw);
      MarkerRoot(w, path);
      assert StoreAll(Map(w + [m]), [node]) == Outcome(Map(w), [Write(path, Map(w))], None);
      assert StoreRun(l) == StoreAll(l, body + [node]);
    }
  }

  /** A loaded tree whose mappings `collect_node` enters are dicts reached
      under keys a dotted xpath can name again. */
  predicate Walkable(t: Tree)
  {
    match t
    case Map(es) =>
      && Unique(es)
      && forall i :: 0 <= i < |es| && es[i].0 != MARK && es[i].1.Map? ==>
           es[i].0 != "" && '.' !in es[i].0 && Walkable(es[i].1)
    case _ => true
  }

  /** `get_node` on the node's xpath finds a mapping holding a marker, and
      the node is that marker's `fullpath` and `value`; below the root, the
      xpath is made of safe keys. */
  predicate Marked(g: Tree, n: YNode)
  {
    var f := GetNode(g, Split(n.xpath, '.'));
    && f.Ok? && f.value.Map? && HasKey(f.value.entries, MARK)
    && MarkerNode(Get(f.value.entries, MARK), n.xpath) == Ok(n)
    && (n.xpath == "" || SafePath(Split(n.xpath, '.')))
  }

  /** Every node `collect_node` reports stands for a marked mapping that
      `store` finds again by its xpath. */
  lemma CollectSound(g: Tree)
    requires Walkable(g) && g.Map? && Collect(g, "").Ok?
    ensures forall n :: n in Collect(g, "").value ==> Marked(g, n)
  {
    assert At(g, []) == Ok(g);
    CollectEntriesSound(g, [], g, |g.entries|);
    RejectedNone(MarkedIn(g), Collect(g, "").value);
  }

  lemma {:induction false} CollectEntriesSound(g: Tree, xs: seq<string>, t: Tree, k: nat)
    requires SafePath(xs) && At(g, xs) == Ok(t) && t.Map? && Walkable(t) && k <= |t.entries|
    requires CollectEntries(t, Join(xs, '.'), k).Ok?
    ensures Rejected(MarkedIn(g), CollectEntries(t, Join(xs, '.'), k).value) == []
    decreases t, 0, k
  {
    if k > 0 {
      var xp := Join(xs, '.');
      CollectEntriesStep(t, xp, k);
      CollectEntriesSound(g, xs, t, k - 1);
      var prev := CollectEntries(t, xp, k - 1).value;
      var key := t.entries[k - 1].0;
      var v := t.entries[k - 1].1;
      if key == MARK {
        CollectMarkerSound(g, xs, t, k);
        RejectedOne(MarkedIn(g), MarkerNode(v, xp).value);
        SoundFinish(MarkedIn(g), CollectEntries(t, xp, k).value, prev, [MarkerNode(v, xp).value]);
      } else if v.Map? {
        CollectChildAt(g, xs, t, k);
        CollectSoundAt(g, xs + [key], v);
        SoundFinish(MarkedIn(g), CollectEntries(t, xp, k).value, prev, Collect(v, Join(xs + [key], '.')).value);
      } else {
        SoundFinish(MarkedIn(g), CollectEntries(t, xp, k).value, prev, []);
      }
    }
  }

  /** One entry more: what `collect_node` adds for the `k`-th entry. */
  lemma CollectEntriesStep(t: Tree, xp: string, k: nat)
    requires t.Map? && 0 < k <= |t.entries| && CollectEntries(t, xp, k).Ok?
    ensures CollectEntries(t, xp, k - 1).Ok?
    ensures t.entries[k - 1].0 == MARK ==>
      && MarkerNode(t.entries[k - 1].1, xp).Ok?
      && CollectEntries(t, xp, k).value == CollectEntries(t, xp, k - 1).value + [MarkerNode(t.entries[k - 1].1, xp).value]
    ensures t.entries[k - 1].0 != MARK && t.entries[k - 1].1.Map? ==>
      && Collect(t.entries[k - 1].1, Extend(xp, t.entries[k - 1].0)).Ok?
      && CollectEntries(t, xp, k).value == CollectEntries(t, xp, k - 1).value + Collect(t.entries[k - 1].1, Extend(xp, t.entries[k - 1].0)).value
    ensures t.entries[k - 1].0 != MARK && !t.entries[k - 1].1.Map? ==>
      CollectEntries(t, xp, k).value == CollectEntries(t, xp, k - 1).value
  {
  }

  /** `Marked` in `g`, as a test on nodes. */
  function MarkedIn(g: Tree): (ok: YNode -> bool)
    ensures forall n :: ok(n) == Marked(g, n)
  {
    n => Marked(g, n)
  }

  /** The elements of `s` that fail `ok`, in order. */
  function Rejected<T>(ok: T -> bool, s: seq<T>): seq<T>
  {
    if s == [] then []
    else (if ok(s[0]) then [] else [s[0]]) + Rejected(ok, s[1..])
  }

  lemma {:induction false} RejectedNone<T>(ok: T -> bool, s: seq<T>)
    ensures Rejected(ok, s) == [] ==> forall x :: x in s ==> ok(x)
  {
    if s != [] {
      RejectedNone(ok, s[1..]);
    }
  }

  lemma {:induction false} RejectedConcat<T>(ok: T -> bool, a: seq<T>, b: seq<T>)
    ensures Rejected(ok, a + b) == Rejected(ok, a) + Rejected(ok, b)
  {
    if a != [] {
      RejectedConcat(ok, a[1..], b);
      assert (a + b)[0] == a[0] && (a + b)[1..] == a[1..] + b;
    } else {
      assert a + b == b;
    }
  }

  lemma RejectedOne<T>(ok: T -> bool, x: T)
    ensures ok(x) ==> Rejected(ok, [x]) == []
  {
    assert [x][1..] == [];
  }

  lemma SoundFinish<T>(ok: T -> bool, cur: seq<T>, prev: seq<T>, extra: seq<T>)
    requires cur == prev + extra
    ensures Rejected(ok, prev) == [] && Rejected(ok, extra) == [] ==> Rejected(ok, cur) == []
  {
    RejectedConcat(ok, prev, extra);
  }

  /** The `k`-th entry's key is found at its own position. */
  lemma FindAt(es: Entries, k: nat)
    requires Unique(es) && 0 < k <= |es|
    ensures Find(es, es[k - 1].0) == k - 1 && HasKey(es, es[k - 1].0)
  {
    assert es[k - 1].0 in Keys(es) && Keys(es)[k - 1] == es[k - 1].0;
  }

  lemma CollectMarkerSound(g: Tree, xs: seq<string>, t: Tree, k: nat)
    requires SafePath(xs) && At(g, xs) == Ok(t) && t.Map? && Walkable(t) && 0 < k <= |t.entries|
    requires t.entries[k - 1].0 == MARK && MarkerNode(t.entries[k - 1].1, Join(xs, '.')).Ok?
    ensures Marked(g, MarkerNode(t.entries[k - 1].1, Join(xs, '.')).value)
  {
    FindAt(t.entries, k);
    XpathOf(g, xs, t);
  }

  /** The xpath of the mapping at `xs` leads `get_node` back to it. */
  lemma XpathOf(g: Tree, xs: seq<string>, t: Tree)
    requires SafePath(xs) && At(g, xs) == Ok(t)
    ensures var xp := Join(xs, '.');
      && GetNode(g, Split(xp, '.')) == Ok(t)
      && (xp == "" || SafePath(Split(xp, '.')))
  {
    if xs == [] {
      assert Split("", '.') == [""];
    } else {
      SplitJoin(xs, '.');
    }
  }

  lemma CollectChildAt(g: Tree, xs: seq<string>, t: Tree, k: nat)
    requires SafePath(xs) && At(g, xs) == Ok(t) && t.Map? && Walkable(t) && 0 < k <= |t.entries|
    requires t.entries[k - 1].0 != MARK && t.entries[k - 1].1.Map?
    ensures var key := t.entries[k - 1].0;
      && SafePath(xs + [key]) && At(g, xs + [key]) == Ok(t.entries[k - 1].1)
      && Walkable(t.entries[k - 1].1)
      && Extend(Join(xs, '.'), key) == Join(xs + [key], '.')
  {
    var key := t.entries[k - 1].0;
    FindAt(t.entries, k);
    ExtendJoin(xs, key);
    AtConcat(g, xs, [key]);
  }

  lemma {:induction false} CollectSoundAt(g: Tree, xs: seq<string>, t: Tree)
    requires SafePath(xs) && At(g, xs) == Ok(t) && t.Map? && Walkable(t)
    requires Collect(t, Join(xs, '.')).Ok?
    ensures Rejected(MarkedIn(g), Collect(t, Join(xs, '.')).value) == []
    decreases t, 1
  {
    CollectEntriesSound(g, xs, t, |t.entries|);
  }

  /** Storing the nodes of the first `k` entries of a loaded mapping that
      sits at `xs` writes their files and leaves their values as written. */
  lemma {:induction false} EntriesStore(files: Files, dir: string, t: Tree, fuel: nat, e: Entries, k: nat, g: Tree, xs: seq<string>)
    requires FilesOk(files) && t.Map? && Splittable(t) && k <= |t.entries|
    requires ResolvedAs(e, t, files, dir, fuel) && Unique(e)
    requires SafePath(xs) && At(g, xs) == Ok(Map(e))
    ensures EntriesStored(files, dir, t, fuel, e, k, g, xs)
    decreases fuel, 1, t, 0, k
  {
    var ok := StoredUpTo(files, dir, t, fuel, e, g, xs);
    var z := 0;
    EntriesNone(files, dir, t, fuel, e, z, g, xs);
    forall i: nat | 0 < i <= k && ok(i - 1)
      ensures ok(i)
    {
      EntryStore(files, dir, t, fuel, e, i, g, xs);
    }
    Upward(ok, k);
  }

  /** `EntriesStored` as a property of the number of entries. */
  function StoredUpTo(files: Files, dir: string, t: Tree, fuel: nat, e: Entries, g: Tree, xs: seq<string>): (ok: nat -> bool)
    requires t.Map? && |t.entries| <= |e| && At(g, xs).Ok?
    ensures forall k: nat :: ok(k) == (k <= |t.entries| && EntriesStored(files, dir, t, fuel, e, k, g, xs))
  {
    (k: nat) => k <= |t.entries| && EntriesStored(files, dir, t, fuel, e, k, g, xs)
  }

  /** Induction on the naturals: a property of 0 that each number passes
      on to the next holds of every number. */
  lemma {:induction false} Upward(ok: nat -> bool, k: nat)
    requires ok(0)
    requires forall i: nat :: 0 < i <= k && ok(i - 1) ==> ok(i)
    ensures ok(k)
  {
    if k > 0 {
      Upward(ok, k - 1);
    }
  }

  /** Storing the nodes of the `k`-th entry after those of the ones before it. */
  lemma {:induction false} EntryStore(files: Files, dir: string, t: Tree, fuel: nat, e: Entries, k: nat, g: Tree, xs: seq<string>)
    requires FilesOk(files) && t.Map? && Splittable(t) && 0 < k <= |t.entries|
    requires ResolvedAs(e, t, files, dir, fuel) && Unique(e)
    requires SafePath(xs) && At(g, xs) == Ok(Map(e))
    ensures EntriesStored(files, dir, t, fuel, e, k - 1, g, xs) ==> EntriesStored(files, dir, t, fuel, e, k, g, xs)
    decreases fuel, 1, t, 0, k - 1, 2
  {
    if EntriesStored(files, dir, t, fuel, e, k - 1, g, xs) {
      var tv := t.entries[k - 1].1;
      var v := e[k - 1].1;
      assert Resolve(files, dir, tv, fuel) == Ok(v) && Splittable(tv) && SafeKey(t.entries[k - 1].0);
      if v.Map? {
        EntryMapStep(files, dir, t, fuel, e, k, g, xs);
      } else {
        EntryPlainStep(files, dir, t, fuel, e, k, g, xs);
      }
    }
  }

  /** What `EntriesStore` promises for the first `k` entries. */
  predicate EntriesStored(files: Files, dir: string, t: Tree, fuel: nat, e: Entries, k: nat, g: Tree, xs: seq<string>)
    requires t.Map? && k <= |t.entries| <= |e| && At(g, xs).Ok?
  {
    && CollectEntries(Map(e), Join(xs, '.'), k).Ok?
    && StoreAll(g, CollectEntries(Map(e), Join(xs, '.'), k).value) ==
       Outcome(Put(g, xs, Map(Written(e, t.entries, k))), EntriesWrites(files, dir, t, k, fuel), None)
  }

  lemma EntriesNone(files: Files, dir: string, t: Tree, fuel: nat, e: Entries, k: nat, g: Tree, xs: seq<string>)
    requires t.Map? && k == 0 && |t.entries| <= |e| && At(g, xs) == Ok(Map(e))
    ensures EntriesStored(files, dir, t, fuel, e, k, g, xs)
  {
    assert Written(e, t.entries, k) == e;
    PutSame(g, xs);
  }

  /** An entry whose loaded value is not a mapping has no node and stays. */
  lemma EntryPlainStep(files: Files, dir: string, t: Tree, fuel: nat, e: Entries, k: nat, g: Tree, xs: seq<string>)
    requires t.Map? && 0 < k <= |t.entries| <= |e| && At(g, xs).Ok?
    requires e[k - 1].0 == t.entries[k - 1].0 && t.entries[k - 1].0 != MARK
    requires Splittable(t.entries[k - 1].1)
    requires Resolve(files, dir, t.entries[k - 1].1, fuel) == Ok(e[k - 1].1) && !e[k - 1].1.Map?
    requires EntriesStored(files, dir, t, fuel, e, k - 1, g, xs)
    ensures EntriesStored(files, dir, t, fuel, e, k, g, xs)
  {
    var tv := t.entries[k - 1].1;
    PlainValue(files, dir, tv, fuel);
    assert Written(e, t.entries, k) == Written(e, t.entries, k - 1);
    var xp := Join(xs, '.');
    assert CollectEntries(Map(e), xp, k) == CollectEntries(Map(e), xp, k - 1);
    assert TreeWrites(files, dir, tv, fuel) == [];
    assert EntriesWrites(files, dir, t, k, fuel) == EntriesWrites(files, dir, t, k - 1, fuel) + [];
  }

  /** An entry whose loaded value is a mapping: its nodes come next, and
      storing them writes its files and leaves its value as written. */
  lemma {:induction false} EntryMapStep(files: Files, dir: string, t: Tree, fuel: nat, e: Entries, k: nat, g: Tree, xs: seq<string>)
    requires FilesOk(files) && t.Map? && Splittable(t) && 0 < k <= |t.entries|
    requires ResolvedAs(e, t, files, dir, fuel) && Unique(e)
    requires SafePath(xs) && At(g, xs) == Ok(Map(e))
    requires e[k - 1].1.Map?
    requires EntriesStored(files, dir, t, fuel, e, k - 1, g, xs)
    ensures EntriesStored(files, dir, t, fuel, e, k, g, xs)
    decreases fuel, 1, t, 0, k - 1, 1
  {
    var w := Written(e, t.entries, k - 1);
    var key := t.entries[k - 1].0;
    var tv := t.entries[k - 1].1;
    EntryPrep(files, dir, t, fuel, e, k, g, xs);
    TreeStore(files, dir, tv, fuel, Put(g, xs, Map(w)), xs + [key]);
    EntryMapFinish(files, dir, t, fuel, e, k, g, xs);
  }

  /** The `k`-th entry, with the entries before it written: its key is safe,
      its value loads into the mapping found at its place. */
  lemma EntryPrep(files: Files, dir: string, t: Tree, fuel: nat, e: Entries, k: nat, g: Tree, xs: seq<string>)
    requires t.Map? && Splittable(t) && 0 < k <= |t.entries|
    requires ResolvedAs(e, t, files, dir, fuel) && Unique(e)
    requires SafePath(xs) && At(g, xs).Ok? && e[k - 1].1.Map?
    ensures var key := t.entries[k - 1].0;
      var tv := t.entries[k - 1].1;
      && SafeKey(key) && Splittable(tv) && (tv.Map? || tv.Include?) && SafePath(xs + [key])
      && (forall j :: 0 <= j < |t.entries| ==> e[j].0 == t.entries[j].0)
      && Resolve(files, dir, tv, fuel) == Ok(e[k - 1].1)
      && At(Put(g, xs, Map(Written(e, t.entries, k - 1))), xs + [key]) == Ok(e[k - 1].1)
  {
    var w := Written(e, t.entries, k - 1);
    var tv := t.entries[k - 1].1;
    assert Resolve(files, dir, tv, fuel) == Ok(e[k - 1].1);
    ResolvesToMap(files, dir, tv, fuel);
    WrittenAt(e, t.entries, k - 1);
    StepAt(g, xs, w, k - 1);
    SafePathSnoc(xs, t.entries[k - 1].0);
  }

  lemma SafePathSnoc(xs: seq<string>, key: string)
    requires SafePath(xs) && SafeKey(key)
    ensures SafePath(xs + [key])
  {
  }

  lemma EntryMapFinish(files: Files, dir: string, t: Tree, fuel: nat, e: Entries, k: nat, g: Tree, xs: seq<string>)
    requires t.Map? && 0 < k <= |t.entries| <= |e| && Unique(e) && SafePath(xs) && At(g, xs).Ok?
    requires forall j :: 0 <= j < |t.entries| ==> e[j].0 == t.entries[j].0
    requires SafeKey(t.entries[k - 1].0) && e[k - 1].1.Map?
    requires EntriesStored(files, dir, t, fuel, e, k - 1, g, xs)
    requires var g1 := Put(g, xs, Map(Written(e, t.entries, k - 1)));
      var key := t.entries[k - 1].0;
      var c := Collect(e[k - 1].1, Join(xs + [key], '.'));
      && At(g1, xs + [key]).Ok? && c.Ok?
      && StoreAll(g1, c.value) ==
         Outcome(Put(g1, xs + [key], AsWritten(t.entries[k - 1].1)), TreeWrites(files, dir, t.entries[k - 1].1, fuel), None)
    ensures EntriesStored(files, dir, t, fuel, e, k, g, xs)
  {
    var xp := Join(xs, '.');
    var ns := CollectEntries(Map(e), xp, k - 1).value;
    var w := Written(e, t.entries, k - 1);
    var key := t.entries[k - 1].0;
    var tv := t.entries[k - 1].1;
    ExtendJoin(xs, key);
    var sub := Collect(e[k - 1].1, Join(xs + [key], '.')).value;
    CollectStep(e, xp, k, ns, sub);
    EntryStep(g, xs, w, key, AsWritten(tv), ns, sub,
      EntriesWrites(files, dir, t, k - 1, fuel), TreeWrites(files, dir, tv, fuel));
    WrittenStep(e, t.entries, k);
  }

  /** `collect_node` on the `k`-th entry, a mapping under a plain key. */
  lemma CollectStep(e: Entries, xp: string, k: nat, ns: seq<YNode>, sub: seq<YNode>)
    requires 0 < k <= |e| && e[k - 1].0 != MARK && e[k - 1].1.Map?
    requires CollectEntries(Map(e), xp, k - 1) == Ok(ns)
    requires Collect(e[k - 1].1, Extend(xp, e[k - 1].0)) == Ok(sub)
    ensures CollectEntries(Map(e), xp, k) == Ok(ns + sub)
  {
  }

  /** Storing one more entry's nodes after those of the entries before it. */
  lemma EntryStep(g: Tree, xs: seq<string>, w: Entries, key: string, av: Tree,
                  ns: seq<YNode>, sub: seq<YNode>, ws: seq<Write>, tws: seq<Write>)
    requires At(g, xs).Ok? && At(Put(g, xs, Map(w)), xs + [key]).Ok?
    requires StoreAll(g, ns) == Outcome(Put(g, xs, Map(w)), ws, None)
    requires StoreAll(Put(g, xs, Map(w)), sub) == Outcome(Put(Put(g, xs, Map(w)), xs + [key], av), tws, None)
    ensures StoreAll(g, ns + sub) == Outcome(Put(g, xs, Map(Assign(w, key, av))), ws + tws, None)
  {
    var g1 := Put(g, xs, Map(w));
    var m := Map(Assign(w, key, av));
    PutStep(g1, xs, key, av);
    PutPut(g, xs, Map(w), m);
    StoreAllConcat(g, ns, sub);
  }

  /** Storing the nodes of a loaded value at `xs` writes its files and
      leaves, at `xs`, the value as written. */
  lemma {:induction false} TreeStore(files: Files, dir: string, t: Tree, fuel: nat, g: Tree, xs: seq<string>)
    requires FilesOk(files) && Splittable(t) && (t.Map? || t.Include?)
    requires Resolve(files, dir, t, fuel).Ok?
    requires SafePath(xs) && |xs| >= 1 && At(g, xs) == Ok(Resolve(files, dir, t, fuel).value)
    ensures var v := Resolve(files, dir, t, fuel).value;
      && v.Map? && Collect(v, Join(xs, '.')).Ok?
      && StoreAll(g, Collect(v, Join(xs, '.')).value) ==
         Outcome(Put(g, xs, AsWritten(t)), TreeWrites(files, dir, t, fuel), None)
    decreases fuel, 1, t, 1
  {
    match t
    case Map(es) =>
      var e := ResolveEntries(files, dir, t, |es|, fuel).value;
      ResolveEntriesAt(files, dir, t, |es|, fuel);
      assert Resolve(files, dir, t, fuel) == Ok(Map(e));
      assert Unique(e) by {
        forall i, j | 0 <= i < j < |e| ensures e[i].0 != e[j].0 {
          assert e[i].0 == es[i].0 && e[j].0 == es[j].0;
        }
      }
      EntriesStore(files, dir, t, fuel, e, |es|, g, xs);
      assert Written(e, es, |es|) == AsWritten(t).entries;
    case Include(ref) =>
      LoadedChild(files, PathJoin(dir, ref), ref, fuel, g, xs);
  }

  /** A loaded file at `xs`: storing the nodes of its entries leaves the
      file as written, still carrying its marker as the last entry. */
  lemma {:induction false} LoadedBody(files: Files, path: string, value: Option<string>, fuel: nat, g: Tree, xs: seq<string>)
    requires FilesOk(files) && Load(files, path, value, fuel).Ok?
    requires SafePath(xs) && At(g, xs) == Ok(Load(files, path, value, fuel).value)
    ensures path in files && fuel > 0
    ensures var raw := files[path];
      var l := Load(files, path, value, fuel).value;
      var n := |raw.entries|;
      && raw.Map? && l.Map? && |l.entries| == n + 1 && l.entries[n] == (MARK, Marker(path, value))
      && CollectEntries(l, Join(xs, '.'), n).Ok?
      && StoreAll(g, CollectEntries(l, Join(xs, '.'), n).value) ==
         Outcome(Put(g, xs, Map(AsWritten(raw).entries + [(MARK, Marker(path, value))])),
                 TreeWrites(files, Dirname(path), raw, fuel - 1), None)
    decreases fuel, 0, 0
  {
    var raw := files[path];
    var n := |raw.entries|;
    var m := (MARK, Marker(path, value));
    var l := Load(files, path, value, fuel).value;
    assert Splittable(raw);
    ShapedStore(files, Dirname(path), raw, fuel - 1, l, g, xs, m);
    LoadedShape(files, path, value, fuel);
  }

  /** A mapping shaped like a loaded file, at `xs`: storing the nodes of
      its entries leaves the file as written followed by its marker. */
  lemma ShapedStore(files: Files, dir: string, raw: Tree, fuel: nat, l: Tree, g: Tree, xs: seq<string>, m: (string, Tree))
    requires FilesOk(files) && raw.Map? && Splittable(raw) && l.Map?
    requires SafePath(xs) && At(g, xs) == Ok(l)
    decreases fuel, 2
    ensures var n := |raw.entries|;
      && l == Map(l.entries) && |l.entries| == n + 1 && l.entries[n] == m
      && ResolvedAs(l.entries, raw, files, dir, fuel) && Unique(l.entries)
      ==>
      && CollectEntries(l, Join(xs, '.'), n).Ok?
      && StoreAll(g, CollectEntries(l, Join(xs, '.'), n).value) ==
         Outcome(Put(g, xs, Map(AsWritten(raw).entries + [m])), TreeWrites(files, dir, raw, fuel), None)
  {
    var n := |raw.entries|;
    if l == Map(l.entries) && |l.entries| == n + 1 && l.entries[n] == m
      && ResolvedAs(l.entries, raw, files, dir, fuel) && Unique(l.entries)
    {
      EntriesStore(files, dir, raw, fuel, l.entries, n, g, xs);
      StoredFile(files, dir, raw, fuel, l.entries, g, xs, m);
    }
  }

  /** Once every entry of a file is stored, the mapping holds the file as
      written followed by its marker, and the file's includes are written. */
  lemma StoredFile(files: Files, dir: string, raw: Tree, fuel: nat, e: Entries, g: Tree, xs: seq<string>, m: (string, Tree))
    requires raw.Map? && |e| == |raw.entries| + 1 && e[|raw.entries|] == m && At(g, xs).Ok?
    requires forall i :: 0 <= i < |raw.entries| ==> e[i].0 == raw.entries[i].0
    ensures EntriesStored(files, dir, raw, fuel, e, |raw.entries|, g, xs) ==>
      && CollectEntries(Map(e), Join(xs, '.'), |raw.entries|).Ok?
      && StoreAll(g, CollectEntries(Map(e), Join(xs, '.'), |raw.entries|).value) ==
         Outcome(Put(g, xs, Map(AsWritten(raw).entries + [m])), TreeWrites(files, dir, raw, fuel), None)
  {
    WrittenMarked(e, raw.entries, m);
  }

  lemma WrittenMarked(e: Entries, es: Entries, m: (string, Tree))
    requires |e| == |es| + 1 && e[|es|] == m
    requires forall i :: 0 <= i < |es| ==> e[i].0 == es[i].0
    ensures Written(e, es, |es|) == AsWritten(Map(es)).entries + [m]
  {
  }

  /** A loaded file is its entries, resolved, then its marker: dict keys
      throughout, the marker's among them only once. */
  lemma LoadedShape(files: Files, path: string, value: Option<string>, fuel: nat)
    requires FilesOk(files) && Load(files, path, value, fuel).Ok?
    ensures path in files && fuel > 0 && files[path].Map?
    ensures var raw := files[path];
      var l := Load(files, path, value, fuel).value;
      && l == Map(l.entries) && |l.entries| == |raw.entries| + 1
      && l.entries[|raw.entries|] == (MARK, Marker(path, value))
      && ResolvedAs(l.entries, raw, files, Dirname(path), fuel - 1) && Unique(l.entries)
  {
    var raw := files[path];
    var dir := Dirname(path);
    var n := |raw.entries|;
    var m := (MARK, Marker(path, value));
    var r := ResolveEntries(files, dir, raw, n, fuel - 1).value;
    ResolveEntriesAt(files, dir, raw, n, fuel - 1);
    assert Resolve(files, dir, raw, fuel - 1) == Ok(Map(r));
    var l := Load(files, path, value, fuel).value;
    assert l.entries == r + [m];
    assert ResolvedAs(l.entries, raw, files, dir, fuel - 1) by {
      forall i | 0 <= i < n ensures l.entries[i] == r[i] { }
    }
    MarkedUnique(l.entries, raw.entries);
  }

  /** Safe, distinct keys followed by the marker key are distinct. */
  lemma MarkedUnique(e: Entries, es: Entries)
    requires |e| == |es| + 1 && e[|es|].0 == MARK && Unique(es)
    requires forall i :: 0 <= i < |es| ==> e[i].0 == es[i].0 && SafeKey(es[i].0)
    ensures Unique(e)
  {
    forall i, j | 0 <= i < j < |e| ensures e[i].0 != e[j].0 {
      assert SafeKey(es[i].0);
    }
  }

  /** An included file at `xs`: storing all its nodes writes it and its
      includes, and leaves `'!include ' + ref` in its place. */
  lemma {:induction false} LoadedChild(files: Files, path: string, ref: string, fuel: nat, g: Tree, xs: seq<string>)
    requires FilesOk(files) && ref != "" && Load(files, path, Some(ref), fuel).Ok?
    requires SafePath(xs) && |xs| >= 1 && At(g, xs) == Ok(Load(files, path, Some(ref), fuel).value)
    ensures var l := Load(files, path, Some(ref), fuel).value;
      && Collect(l, Join(xs, '.')).Ok?
      && StoreAll(g, Collect(l, Join(xs, '.')).value) ==
         Outcome(Put(g, xs, Str(TAG + " " + ref)), FileWrites(files, path, fuel), None)
    decreases fuel, 0, 1
  {
    LoadedBody(files, path, Some(ref), fuel, g, xs);
    var raw := files[path];
    var l := Load(files, path, Some(ref), fuel).value;
    var n := |raw.entries|;
    var xp := Join(xs, '.');
    var body := CollectEntries(l, xp, n).value;
    var node := YNode(xp, Str(path), Str(ref));
    CollectMarked(l, xp, n, path, Some(ref));
    var w := AsWritten(raw).entries;
    var m := Map(w + [(MARK, Marker(path, Some(ref)))]);
    var ws := TreeWrites(files, Dirname(path), raw, fuel - 1);
    var g1 := Put(g, xs, m);
    assert StoreAll(g, body) == Outcome(g1, ws, None);
    StoreAllConcat(g, body, [node]);
    NoMarkWritten(raw);
    MarkerChild(g, xs, w, path, ref);
    var x := Str(TAG + " " + ref);
    StoreAllOne(g1, node);
    assert StoreAll(g1, [node]) == Outcome(Put(g, xs, x), [Write(path, Map(w))], None);
    assert Map(w) == AsWritten(raw);
    assert FileWrites(files, path, fuel) == ws + [Write(path, AsWritten(raw))];
  }

  /** The loop of `store` over one node that raises nothing. */
  lemma StoreAllOne(g: Tree, n: YNode)
    requires StoreNode(g, n).error.None?
    ensures StoreAll(g, [n]) == Outcome(StoreNode(g, n).tree, [StoreNode(g, n).write.value], None)
  {
    assert [n][1..] == [];
    assert [StoreNode(g, n).write.value] + [] == [StoreNode(g, n).write.value];
  }

  /** A loaded mapping's marker is its last entry, so its node comes after
      those of all the other entries. */
  lemma CollectMarked(l: Tree, xp: string, n: nat, path: string, value: Option<string>)
    requires l.Map? && |l.entries| == n + 1 && l.entries[n] == (MARK, Marker(path, value))
    requires CollectEntries(l, xp, n).Ok?
    ensures Collect(l, xp) ==
      Ok(CollectEntries(l, xp, n).value + [YNode(xp, Str(path), if value.Some? then Str(value.value) else Null)])
  {
    var node := YNode(xp, Str(path), if value.Some? then Str(value.value) else Null);
    assert MarkerNode(Marker(path, value), xp) == Ok(node);
  }

  /** The marker node of an included file, stored last: its mapping is
      written without the marker and replaced by the include directive. */
  lemma MarkerChild(g: Tree, xs: seq<string>, w: Entries, path: string, ref: string)
    requires SafePath(xs) && |xs| >= 1 && At(g, xs).Ok? && !HasKey(w, MARK) && ref != ""
    ensures var g1 := Put(g, xs, Map(w + [(MARK, Marker(path, Some(ref)))]));
      StoreNode(g1, YNode(Join(xs, '.'), Str(path), Str(ref))) ==
      Step(Put(g, xs, Str(TAG + " " + ref)), Some(Write(path, Map(w))), None)
  {
    var m := Map(w + [(MARK, Marker(path, Some(ref)))]);
    var g1 := Put(g, xs, m);
    var x := Str(TAG + " " + ref);
    MarkerChildNode(g1, xs, w, path, ref);
    PutPut(g1, xs, Map(w), x);
    PutPut(g, xs, m, x);
  }

  lemma MarkerChildNode(g1: Tree, xs: seq<string>, w: Entries, path: string, ref: string)
    requires SafePath(xs) && |xs| >= 1 && !HasKey(w, MARK) && ref != ""
    requires At(g1, xs) == Ok(Map(w + [(MARK, Marker(path, Some(ref)))]))
    ensures StoreNode(g1, YNode(Join(xs, '.'), Str(path), Str(ref))) ==
      Step(Put(Put(g1, xs, Map(w)), xs, Str(TAG + " " + ref)), Some(Write(path, Map(w))), None)
  {
    var n := YNode(Join(xs, '.'), Str(path), Str(ref));
    var m := w + [(MARK, Marker(path, Some(ref)))];
    SplitJoin(xs, '.');
    DeleteLast(w, MARK, Marker(path, Some(ref)));
    assert xs[0] != "";
    var g2 := Put(g1, xs, Map(w));
    assert PutNode(g1, xs, Map(w)) == g2;
    ParentPut(g2, xs, Str(TAG + " " + ref));
    StoreNodeIncluded(g1, n, xs, m, path, ref);
  }

  /** The top-level file's marker node, stored last: the root mapping is
      written without its marker and stays in place (its value is None). */
  lemma MarkerRoot(w: Entries, path: string)
    requires !HasKey(w, MARK)
    ensures StoreNode(Map(w + [(MARK, Marker(path, None))]), YNode("", Str(path), Null)) ==
      Step(Map(w), Some(Write(path, Map(w))), None)
  {
    DeleteLast(w, MARK, Marker(path, None));
    assert Split("", '.') == [""];
    StoreNodeTop(YNode("", Str(path), Null), [""], w + [(MARK, Marker(path, None))], path);
  }

  /** Every file `FileWrites` lists is a file of the store, written as read. */
  lemma {:induction false} FileWritesFaithful(files: Files, path: string, fuel: nat)
    ensures forall w :: w in FileWrites(files, path, fuel) ==> w.path in files && w.doc == AsWritten(files[w.path])
    decreases fuel, 0
  {
    if path in files && fuel > 0 {
      TreeWritesFaithful(files, Dirname(path), files[path], fuel - 1);
    }
  }

  lemma {:induction false} TreeWritesFaithful(files: Files, dir: string, t: Tree, fuel: nat)
    ensures forall w :: w in TreeWrites(files, dir, t, fuel) ==> w.path in files && w.doc == AsWritten(files[w.path])
    decreases fuel, 1, t, 1
  {
    match t
    case Include(ref) => FileWritesFaithful(files, PathJoin(dir, ref), fuel);
    case Map(es) => EntriesWritesFaithful(files, dir, t, |es|, fuel);
    case _ =>
  }

  lemma {:induction false} EntriesWritesFaithful(files: Files, dir: string, t: Tree, k: nat, fuel: nat)
    requires t.Map? && k <= |t.entries|
    ensures forall w :: w in EntriesWrites(files, dir, t, k, fuel) ==> w.path in files && w.doc == AsWritten(files[w.path])
    decreases fuel, 1, t, 0, k
  {
    if k > 0 {
      EntriesWritesFaithful(files, dir, t, k - 1, fuel);
      TreeWritesFaithful(files, dir, t.entries[k - 1].1, fuel);
    }
  }

  /** `for n in a + b` is the loop over `a`, then the loop over `b`. */
  lemma {:induction false} StoreAllConcat(g: Tree, a: seq<YNode>, b: seq<YNode>)
    requires StoreAll(g, a).error.None?
    ensures StoreAll(g, a + b) == Then(StoreAll(g, a).writes, StoreAll(StoreAll(g, a).tree, b))
    decreases |a|
  {
    if a == [] {
      StoreAllNil(g, b);
    } else {
      var s := StoreNode(g, a[0]);
      StoreAllCons(g, a);
      var o := StoreAll(s.tree, a[1..]);
      assert StoreAll(g, a) == Then([s.write.value], o);
      StoreAllConcat(s.tree, a[1..], b);
      StoreAllConsConcat(g, a, b);
      ThenThen([s.write.value], o.writes, StoreAll(o.tree, b));
    }
  }

  lemma ThenThen(x: seq<Write>, y: seq<Write>, o: Outcome)
    ensures Then(x, Then(y, o)) == Then(x + y, o)
  {
    assert x + (y + o.writes) == (x + y) + o.writes;
  }

  lemma StoreAllNil(g: Tree, b: seq<YNode>)
    ensures StoreAll(g, [] + b) == Then(StoreAll(g, []).writes, StoreAll(StoreAll(g, []).tree, b))
  {
    assert [] + b == b;
    var o := StoreAll(g, b);
    assert [] + o.writes == o.writes;
  }

  lemma StoreAllConsConcat(g: Tree, a: seq<YNode>, b: seq<YNode>)
    requires a != [] && StoreNode(g, a[0]).error.None?
    ensures var s := StoreNode(g, a[0]);
      StoreAll(g, a + b) == Then([s.write.value], StoreAll(s.tree, a[1..] + b))
  {
    ConsConcat(a, b);
    StoreAllCons(g, a + b);
  }

  /** One turn of the loop of `store`, for a run that raised nothing. */
  lemma StoreAllCons(g: Tree, ns: seq<YNode>)
    requires ns != []
    ensures var s := StoreNode(g, ns[0]);
      s.error.None? ==> StoreAll(g, ns) == Then([s.write.value], StoreAll(s.tree, ns[1..]))
    ensures StoreNode(g, ns[0]).error.Some? ==> StoreAll(g, ns).error.Some?
  {
  }

  lemma ConsConcat<T>(a: seq<T>, b: seq<T>)
    requires a != []
    ensures (a + b)[0] == a[0] && (a + b)[1..] == a[1..] + b
  {
  }

  /** Deleting the last-appended key gives back what was there before. */
  lemma DeleteLast(w: Entries, k: string, v: Tree)
    requires !HasKey(w, k)
    ensures HasKey(w + [(k, v)], k) && Delete(w + [(k, v)], k) == w
  {
    AppendFind(w, k, v, k);
    assert (w + [(k, v)])[..|w|] == w;
  }

  /** A file as written holds no marker key. */
  lemma NoMarkWritten(raw: Tree)
    requires raw.Map? && Splittable(raw)
    ensures !HasKey(AsWritten(raw).entries, MARK)
  {
    var w := AsWritten(raw).entries;
    if HasKey(w, MARK) {
      assert false;
    }
  }

  /** Only a mapping or an include tag loads into a mapping. */
  lemma ResolvesToMap(files: Files, dir: string, t: Tree, fuel: nat)
    requires Resolve(files, dir, t, fuel).Ok? && Resolve(files, dir, t, fuel).value.Map?
    ensures t.Map? || t.Include?
  {
  }

  /** A value that does not load into a mapping holds no include tag, so
      it loads and is written as it is. */
  lemma PlainValue(files: Files, dir: string, t: Tree, fuel: nat)
    requires Splittable(t) && Resolve(files, dir, t, fuel).Ok? && !Resolve(files, dir, t, fuel).value.Map?
    ensures Resolve(files, dir, t, fuel) == Ok(t) && AsWritten(t) == t
  {
    assert Plain(t);
    ResolvePlain(files, dir, t, fuel);
    AsWrittenPlain(t);
  }

  lemma {:induction false} AsWrittenPlain(t: Tree)
    requires Plain(t)
    ensures AsWritten(t) == t
  {
    match t
    case Map(es) =>
      forall i | 0 <= i < |es| ensures AsWritten(es[i].1) == es[i].1 {
        AsWrittenPlain(es[i].1);
      }
      assert AsWritten(t).entries == es;
    case List(xs) =>
      forall i | 0 <= i < |xs| ensures AsWritten(xs[i]) == xs[i] {
        AsWrittenPlain(xs[i]);
      }
      assert AsWritten(t).items == xs;
    case _ =>
  }

  /** The resolved entries of a mapping, slot by slot. */
  lemma {:induction false} ResolveEntriesAt(files: Files, dir: string, t: Tree, k: nat, fuel: nat)
    requires t.Map? && k <= |t.entries| && ResolveEntries(files, dir, t, k, fuel).Ok?
    ensures var e := ResolveEntries(files, dir, t, k, fuel).value;
      |e| == k && forall i :: 0 <= i < k ==>
        e[i].0 == t.entries[i].0 && Resolve(files, dir, t.entries[i].1, fuel) == Ok(e[i].1)
  {
    if k > 0 {
      ResolveEntriesStep(files, dir, t, k, fuel);
      ResolveEntriesAt(files, dir, t, k - 1, fuel);
      SlotsSnoc(files, dir, t, k, fuel, ResolveEntries(files, dir, t, k - 1, fuel).value,
        Resolve(files, dir, t.entries[k - 1].1, fuel).value);
    }
  }

  lemma SlotsSnoc(files: Files, dir: string, t: Tree, k: nat, fuel: nat, p: Entries, v: Tree)
    requires t.Map? && 0 < k <= |t.entries| && |p| == k - 1
    requires forall i :: 0 <= i < k - 1 ==>
      p[i].0 == t.entries[i].0 && Resolve(files, dir, t.entries[i].1, fuel) == Ok(p[i].1)
    requires Resolve(files, dir, t.entries[k - 1].1, fuel) == Ok(v)
    ensures var e := p + [(t.entries[k - 1].0, v)];
      |e| == k && forall i :: 0 <= i < k ==>
        e[i].0 == t.entries[i].0 && Resolve(files, dir, t.entries[i].1, fuel) == Ok(e[i].1)
  {
    var e := p + [(t.entries[k - 1].0, v)];
    forall i | 0 <= i < k
      ensures e[i].0 == t.entries[i].0 && Resolve(files, dir, t.entries[i].1, fuel) == Ok(e[i].1)
    {
      if i < k - 1 {
        assert e[i] == p[i];
      }
    }
  }

  /** One slot more: the resolved entries of `k` slots extend those of `k - 1`. */
  lemma ResolveEntriesStep(files: Files, dir: string, t: Tree, k: nat, fuel: nat)
    requires t.Map? && 0 < k <= |t.entries| && ResolveEntries(files, dir, t, k, fuel).Ok?
    ensures ResolveEntries(files, dir, t, k - 1, fuel).Ok?
    ensures Resolve(files, dir, t.entries[k - 1].1, fuel).Ok?
    ensures ResolveEntries(files, dir, t, k, fuel).value ==
      ResolveEntries(files, dir, t, k - 1, fuel).value + [(t.entries[k - 1].0, Resolve(files, dir, t.entries[k - 1].1, fuel).value)]
  {
  }

  /** In the partly written entries, the key of slot `i` is found at `i`. */
  lemma WrittenAt(e: Entries, es: Entries, i: nat)
    requires i < |es| <= |e| && Unique(e)
    requires forall j :: 0 <= j < |es| ==> e[j].0 == es[j].0
    ensures var w := Written(e, es, i);
      Unique(w) && Find(w, es[i].0) == i && w[i] == e[i]
  {
    var w := Written(e, es, i);
    assert forall j :: 0 <= j < |w| ==> w[j].0 == e[j].0;
    var f := Find(w, es[i].0);
    assert w[i].0 == es[i].0;
    assert es[i].0 in Keys(w);
  }

  /** Writing slot `k - 1` extends the written prefix by one. */
  lemma WrittenStep(e: Entries, es: Entries, k: nat)
    requires 0 < k <= |es| <= |e| && Unique(e)
    requires forall j :: 0 <= j < |es| ==> e[j].0 == es[j].0
    ensures Assign(Written(e, es, k - 1), es[k - 1].0, AsWritten(es[k - 1].1)) == Written(e, es, k)
  {
    var w := Written(e, es, k - 1);
    WrittenAt(e, es, k - 1);
    assert Assign(w, es[k - 1].0, AsWritten(es[k - 1].1)) == w[k - 1 := (es[k - 1].0, AsWritten(es[k - 1].1))];
    WrittenUpdate(e, es, k);
  }

  /** Slot `k - 1` is the only one whose value changes between `k - 1` and `k`. */
  lemma WrittenUpdate(e: Entries, es: Entries, k: nat)
    requires 0 < k <= |es| <= |e| && e[k - 1].0 == es[k - 1].0
    ensures Written(e, es, k - 1)[k - 1 := (es[k - 1].0, AsWritten(es[k - 1].1))] == Written(e, es, k)
  {
  }

  /** After the first `i` entries are written, the next one is still the loaded value. */
  lemma StepAt(g: Tree, xs: seq<string>, w: Entries, i: nat)
    requires At(g, xs).Ok? && i < |w| && Find(w, w[i].0) == i
    ensures At(Put(g, xs, Map(w)), xs + [w[i].0]) == Ok(w[i].1)
  {
    var g1 := Put(g, xs, Map(w));
    AtConcat(g1, xs, [w[i].0]);
  }

  /** Through `get_node`, assigning into the parent of `xs` is assigning at `xs`. */
  lemma ParentPut(g: Tree, xs: seq<string>, v: Tree)
    requires SafePath(xs) && |xs| >= 1 && At(g, xs).Ok?
    ensures var ys := xs[..|xs| - 1];
      && GetNode(g, ys).Ok? && GetNode(g, ys).value.Map?
      && HasKey(GetNode(g, ys).value.entries, xs[|xs| - 1])
      && PutNode(g, ys, Map(Assign(GetNode(g, ys).value.entries, xs[|xs| - 1], v))) == Put(g, xs, v)
  {
    var ys := xs[..|xs| - 1];
    SnocLast(xs);
    PutStep(g, ys, xs[|xs| - 1], v);
  }

  /** The xpath of a child is the dot-join of its key path. */
  lemma ExtendJoin(xs: seq<string>, k: string)
    requires SafePath(xs)
    ensures Extend(Join(xs, '.'), k) == Join(xs + [k], '.')
  {
    if xs == [] {
      assert xs + [k] == [k];
    } else {
      assert |Join(xs, '.')| >= |xs[0]| by {
        if |xs| > 1 {
          assert Join(xs, '.') == xs[0] + ['.'] + Join(xs[1..], '.');
        }
      }
      JoinSnoc(xs, k);
    }
  }

  lemma {:induction false} JoinSnoc(xs: seq<string>, k: string)
    requires |xs| >= 1
    ensures Join(xs + [k], '.') == Join(xs, '.') + "." + k
  {
    if |xs| == 1 {
      assert (xs + [k])[1..] == [k];
    } else {
      assert (xs + [k])[1..] == xs[1..] + [k];
      JoinSnoc(xs[1..], k);
    }
  }
}
