/** `Config` (pysp/conf.py): a configuration tree that is loaded from a
    file, overlaid by further files, queried and updated by dotted keys, and
    stored back into its files. */
module Configs {
  import opened Trees
  import opened Paths
  import opened Access
  import opened Include
  import opened YamlStore
  import Merge
  import RoundTrip

  /** The marker field `_fixup_folder` rewrites: `'{}.{}.fullpath'.format(xpath, MARK)`. */
  function FullpathKey(xpath: string): string
  {
    xpath + "." + MARK + ".fullpath"
  }

  /** The rewriting loop of `_fixup_folder` over the collected nodes: every
      node with a truthy value gets `'{}/{}'.format(dir, value)` as its
      fullpath. The tree as far as it got and the first exception. */
  function FixupNodes(t: Tree, dir: string, ns: seq<YNode>): (r: (Tree, Option<Error>))
    decreases |ns|
  {
    if ns == [] then (t, None)
    else if !Truthy(ns[0].value) then FixupNodes(t, dir, ns[1..])
    else
      var updated := SetPath(t, Target(ns[0]), Placed(dir, ns[0]));
      if updated.Fail? then (t, Some(updated.error)) else FixupNodes(updated.value, dir, ns[1..])
  }

  /** The key path `_fixup_folder` sets for a node: its fullpath key split on dots. */
  function Target(n: YNode): seq<string>
  {
    Split(FullpathKey(n.xpath), '.')
  }

  /** The fullpath `_fixup_folder` gives a node with a value. */
  function Placed(dir: string, n: YNode): Tree
  {
    Str(dir + "/" + Text(n.value))
  }

  /** `_fixup_folder(yobject, ymlpath)`: nothing happens without a path;
      otherwise the included mappings are placed beside `ymlpath`. */
  function Fixup(t: Tree, ymlpath: string): (r: (Tree, Option<Error>))
  {
    if ymlpath == "" then (t, None)
    else
      var ns := Collect(t, "");
      if ns.Fail? then (t, Some(ns.error)) else FixupNodes(t, Dirname(ymlpath), ns.value)
  }

  /** Without a truthy value there is nothing to rewrite. */
  lemma {:induction false} FixupSkipsValueless(t: Tree, dir: string, ns: seq<YNode>)
    requires forall i :: 0 <= i < |ns| ==> !Truthy(ns[i].value)
    ensures FixupNodes(t, dir, ns) == (t, None)
    decreases |ns|
  {
    if ns != [] {
      FixupSkipsValueless(t, dir, ns[1..]);
    }
  }

  /** `_fixup_folder` on a tree `collect_node` can walk: every `set_value`
      succeeds; afterwards `get_value` on the `fullpath` field of each
      included mapping's marker gives `dirname(ymlpath)/value`, the folder
      of the top-level file even for an include nested in a sub-folder; and
      every key path that parts ways with all of these looks up what it did
      before. The top-level document's own node has no value, as `load`
      and `store(to_abs)` leave it. */
  lemma FixupRelocates(t: Tree, ymlpath: string, def: Tree)
    requires RoundTrip.Walkable(t) && t.Map? && Collect(t, "").Ok? && ymlpath != ""
    requires forall n :: n in Collect(t, "").value && n.xpath == "" ==> !Truthy(n.value)
    ensures Fixup(t, ymlpath).1 == None
    ensures forall n :: n in Collect(t, "").value && Truthy(n.value) ==>
      && Target(n) == Split(n.xpath, '.') + [MARK, "fullpath"]
      && Lookup(Fixup(t, ymlpath).0, Target(n), def) == Ok(Str(Dirname(ymlpath) + "/" + Text(n.value)))
    ensures forall q :: (forall n :: n in Collect(t, "").value && Truthy(n.value) ==> Diverge(Target(n), q)) ==>
      Lookup(Fixup(t, ymlpath).0, q, def) == Lookup(t, q, def)
  {
    var ns := Collect(t, "").value;
    var dir := Dirname(ymlpath);
    RoundTrip.CollectSound(t);
    forall n | n in ns && Truthy(n.value)
      ensures Target(n) == Split(n.xpath, '.') + [MARK, "fullpath"] && MapsOnWay(t, Target(n))
    {
      NodeWay(t, n);
    }
    forall n, m | n in ns && m in ns && Truthy(n.value) && Truthy(m.value) && n != m
      ensures Diverge(Target(n), Target(m))
    {
      NodesApart(t, n, m);
    }
    FixupNodesOk(t, dir, ns);
    forall n | n in ns && Truthy(n.value)
      ensures Lookup(FixupNodes(t, dir, ns).0, Target(n), def) == Ok(Placed(dir, n))
    {
      FixupNodesPlace(t, dir, ns, n, def);
    }
    forall q | forall n :: n in ns && Truthy(n.value) ==> Diverge(Target(n), q)
      ensures Lookup(FixupNodes(t, dir, ns).0, q, def) == Lookup(t, q, def)
    {
      FixupNodesLeave(t, dir, ns, q, def);
    }
  }

  /** The key paths set for two different nodes with values part ways. */
  predicate Apart(ns: seq<YNode>)
  {
    forall n, m :: n in ns && m in ns && Truthy(n.value) && Truthy(m.value) && n != m ==>
      Diverge(Target(n), Target(m))
  }

  /** Every `set_value` of the loop succeeds when each walks through dicts
      only and no two of them are on the same way. */
  lemma {:induction false} FixupNodesOk(t: Tree, dir: string, ns: seq<YNode>)
    requires forall n :: n in ns && Truthy(n.value) ==> MapsOnWay(t, Target(n))
    requires Apart(ns)
    ensures FixupNodes(t, dir, ns).1 == None
    decreases |ns|
  {
    if ns != [] {
      var n := ns[0];
      assert forall m :: m in ns[1..] ==> m in ns;
      if Truthy(n.value) {
        var keys := Target(n);
        SetFailsOnlyOnNonMap(t, keys, Placed(dir, n));
        var t1 := SetPath(t, keys, Placed(dir, n)).value;
        forall m | m in ns[1..] && Truthy(m.value)
          ensures MapsOnWay(t1, Target(m))
        {
          SetKeepsWay(t, keys, Placed(dir, n), Target(m));
        }
        FixupNodesOk(t1, dir, ns[1..]);
      } else {
        FixupNodesOk(t, dir, ns[1..]);
      }
    }
  }

  /** A key path that parts ways with every path set looks up as before. */
  lemma {:induction false} FixupNodesLeave(t: Tree, dir: string, ns: seq<YNode>, q: seq<string>, def: Tree)
    requires FixupNodes(t, dir, ns).1 == None
    requires forall n :: n in ns && Truthy(n.value) ==> Diverge(Target(n), q)
    ensures Lookup(FixupNodes(t, dir, ns).0, q, def) == Lookup(t, q, def)
    decreases |ns|
  {
    if ns != [] {
      var n := ns[0];
      assert forall m :: m in ns[1..] ==> m in ns;
      if Truthy(n.value) {
        SetLeavesOthers(t, Target(n), Placed(dir, n), q, def);
        FixupNodesLeave(SetPath(t, Target(n), Placed(dir, n)).value, dir, ns[1..], q, def);
      } else {
        FixupNodesLeave(t, dir, ns[1..], q, def);
      }
    }
  }

  /** A node with a value whose path parts ways with every other node's
      ends up holding its new fullpath. */
  lemma {:induction false} FixupNodesPlace(t: Tree, dir: string, ns: seq<YNode>, n: YNode, def: Tree)
    requires FixupNodes(t, dir, ns).1 == None && n in ns && Truthy(n.value) && Apart(ns)
    ensures Lookup(FixupNodes(t, dir, ns).0, Target(n), def) == Ok(Placed(dir, n))
    decreases |ns|
  {
    var m := ns[0];
    assert forall x :: x in ns[1..] ==> x in ns;
    if Truthy(m.value) {
      var t1 := SetPath(t, Target(m), Placed(dir, m)).value;
      if n in ns[1..] {
        FixupNodesPlace(t1, dir, ns[1..], n, def);
      } else {
        assert m == n;
        GetAfterSet(t, Target(n), Placed(dir, n), def);
        FixupNodesLeave(t1, dir, ns[1..], Target(n), def);
      }
    } else {
      assert n in ns[1..];
      FixupNodesPlace(t, dir, ns[1..], n, def);
    }
  }

  /** The fullpath key of a node is its xpath's keys, the marker key and `fullpath`. */
  lemma TargetSplit(xpath: string)
    ensures Split(FullpathKey(xpath), '.') == Split(xpath, '.') + [MARK, "fullpath"]
  {
    var p := Split(xpath, '.') + [MARK, "fullpath"];
    TargetJoin(xpath);
    TargetFree(xpath);
    SplitJoin(p, '.');
  }

  /** Joining the xpath's keys, the marker key and `fullpath` gives the fullpath key. */
  lemma TargetJoin(xpath: string)
    ensures Join(Split(xpath, '.') + [MARK, "fullpath"], '.') == FullpathKey(xpath)
  {
    var x := Split(xpath, '.');
    JoinSplit(xpath, '.');
    RoundTrip.JoinSnoc(x, MARK);
    RoundTrip.JoinSnoc(x + [MARK], "fullpath");
    assert x + [MARK] + ["fullpath"] == x + [MARK, "fullpath"];
    assert ".fullpath" == "." + "fullpath";
  }

  /** None of the keys of a fullpath key holds a dot. */
  lemma TargetFree(xpath: string)
    ensures var p := Split(xpath, '.') + [MARK, "fullpath"];
      forall i :: 0 <= i < |p| ==> '.' !in p[i]
  {
    var x := Split(xpath, '.');
    var p := x + [MARK, "fullpath"];
    assert '.' !in MARK && '.' !in "fullpath";
    forall i | 0 <= i < |p| ensures '.' !in p[i] {
      if i < |x| { assert p[i] == x[i]; }
    }
  }

  /** Below the root, the way to a marked mapping's `fullpath` passes through dicts only. */
  lemma NodeWay(t: Tree, n: YNode)
    requires RoundTrip.Marked(t, n) && n.xpath != ""
    ensures Target(n) == Split(n.xpath, '.') + [MARK, "fullpath"]
    ensures MapsOnWay(t, Target(n))
  {
    var x := Split(n.xpath, '.');
    TargetSplit(n.xpath);
    assert RoundTrip.SafeKey(x[0]);
    var f := At(t, x).value;
    AtConcat(t, x, [MARK]);
    var p := x + [MARK];
    forall i | 0 <= i < |p| + 1 && At(t, (p + ["fullpath"])[..i]).Ok?
      ensures At(t, (p + ["fullpath"])[..i]).value.Map?
    {
      assert (p + ["fullpath"])[..i] == p[..i];
      if i < |p| {
        AtPrefixes(t, p, i);
      } else {
        assert p[..i] == p;
      }
    }
    assert p + ["fullpath"] == Target(n);
  }

  /** Two different marked nodes below the root set paths that part ways. */
  lemma NodesApart(t: Tree, n: YNode, m: YNode)
    requires RoundTrip.Marked(t, n) && RoundTrip.Marked(t, m) && n != m
    requires n.xpath != "" && m.xpath != ""
    ensures Diverge(Target(n), Target(m))
  {
    assert n.xpath != m.xpath;
    JoinSplit(n.xpath, '.');
    JoinSplit(m.xpath, '.');
    TargetSplit(n.xpath);
    TargetSplit(m.xpath);
    ApartPaths(Split(n.xpath, '.'), Split(m.xpath, '.'));
  }

  /** Different key paths of safe keys, extended to their markers' `fullpath`, part ways. */
  lemma ApartPaths(a: seq<string>, b: seq<string>)
    requires RoundTrip.SafePath(a) && RoundTrip.SafePath(b) && a != b
    ensures Diverge(a + [MARK, "fullpath"], b + [MARK, "fullpath"])
  {
    var pa := a + [MARK, "fullpath"];
    var pb := b + [MARK, "fullpath"];
    DivergeOrPrefix(a, b);
    if Diverge(a, b) {
      var j :| 0 <= j < |a| && j < |b| && a[..j] == b[..j] && a[j] != b[j];
      assert pa[..j] == a[..j] && pb[..j] == b[..j] && pa[j] == a[j] && pb[j] == b[j];
    } else if |a| < |b| {
      var j := |a|;
      assert RoundTrip.SafeKey(b[j]);
      assert pa[..j] == a && pb[..j] == b[..j] && pa[j] == MARK && pb[j] == b[j];
    } else {
      var j := |b|;
      assert RoundTrip.SafeKey(a[j]);
      assert pa[..j] == a[..j] && pb[..j] == b && pa[j] == a[j] && pb[j] == MARK;
    }
  }

  /** A document `{a: {MARK: {fullpath: f, value: ref}}, MARK: {fullpath: top, value: None}}`:
      one mapping included under `a` from the top-level file `top`. */
  function OneInclude(a: string, f: string, ref: string, top: string): Tree
  {
    Map([(a, Map([(MARK, Marker(f, Some(ref)))])), (MARK, Marker(top, None))])
  }

  /** The fullpath is formatted as `'{}/{}'`, not joined: for a file named
      without a directory, `dirname` is `''` and an included mapping is sent
      to the filesystem root, `/ref`, rather than beside `top`. */
  lemma FixupBareFileName(a: string, f: string, ref: string, top: string)
    requires a != "" && '.' !in a && a != MARK && ref != ""
    requires top != "" && '/' !in top
    ensures Fixup(OneInclude(a, f, ref, top), top) == (OneInclude(a, "/" + ref, ref, top), None)
  {
    var ns := [YNode(a, Str(f), Str(ref)), YNode("", Str(top), Null)];
    OneIncludeCollect(a, f, ref, top);
    OneIncludeNodes(a, f, ref, top);
    FixupOf(OneInclude(a, f, ref, top), top, ns, (OneInclude(a, "/" + ref, ref, top), None));
  }

  lemma FixupOf(t: Tree, ymlpath: string, ns: seq<YNode>, r: (Tree, Option<Error>))
    requires ymlpath != "" && '/' !in ymlpath && Collect(t, "") == Ok(ns) && FixupNodes(t, "", ns) == r
    ensures Fixup(t, ymlpath) == r
  {
  }

  lemma OneIncludeNodes(a: string, f: string, ref: string, top: string)
    requires a != "" && '.' !in a && a != MARK && ref != ""
    ensures FixupNodes(OneInclude(a, f, ref, top), "", [YNode(a, Str(f), Str(ref)), YNode("", Str(top), Null)])
      == (OneInclude(a, "/" + ref, ref, top), None)
  {
    var n := YNode(a, Str(f), Str(ref));
    OneIncludeSet(a, f, ref, top);
    assert "" + "/" + Text(n.value) == "/" + ref;
    FixupTwo(OneInclude(a, f, ref, top), "", n, YNode("", Str(top), Null), OneInclude(a, "/" + ref, ref, top));
  }

  /** Two nodes of which only the first has a value: one `set_value`. */
  lemma FixupTwo(t: Tree, dir: string, n: YNode, root: YNode, x: Tree)
    requires Truthy(n.value) && !Truthy(root.value)
    requires SetPath(t, Target(n), Placed(dir, n)) == Ok(x)
    ensures FixupNodes(t, dir, [n, root]) == (x, None)
  {
    assert [n, root][1..] == [root] && [root][1..] == [];
    assert FixupNodes(x, dir, [root]) == (x, None);
  }

  lemma OneIncludeCollect(a: string, f: string, ref: string, top: string)
    requires a != MARK
    ensures Collect(OneInclude(a, f, ref, top), "") == Ok([YNode(a, Str(f), Str(ref)), YNode("", Str(top), Null)])
  {
    var t := OneInclude(a, f, ref, top);
    var inner := t.entries[0].1;
    var n := YNode(a, Str(f), Str(ref));
    var root := YNode("", Str(top), Null);
    assert MarkerNode(Marker(f, Some(ref)), a) == Ok(n);
    assert CollectEntries(inner, a, 0) == Ok([]);
    assert [] + [n] == [n];
    assert Collect(inner, a) == Ok([n]);
    assert CollectEntries(t, "", 1) == Ok([n]);
    assert MarkerNode(Marker(top, None), "") == Ok(root);
    assert [n] + [root] == [n, root];
  }

  lemma OneIncludeSet(a: string, f: string, ref: string, top: string)
    requires a != "" && '.' !in a && a != MARK
    ensures Split(FullpathKey(a), '.') == [a, MARK, "fullpath"]
    ensures SetPath(OneInclude(a, f, ref, top), [a, MARK, "fullpath"], Str("/" + ref)) ==
      Ok(OneInclude(a, "/" + ref, ref, top))
  {
    var keys := [a, MARK, "fullpath"];
    assert keys[1..][1..] == ["fullpath"];
    assert Join(keys[1..], '.') == MARK + "." + "fullpath";
    assert FullpathKey(a) == Join(keys, '.');
    SplitJoin(keys, '.');
    var v := Str("/" + ref);
    var m := Marker(f, Some(ref));
    var m' := Marker("/" + ref, Some(ref));
    assert Find(m.entries, "fullpath") == 0;
    assert m.entries[0 := ("fullpath", v)] == m'.entries;
    assert SetPath(m, ["fullpath"], v) == Ok(m');
    var inner := Map([(MARK, m)]);
    assert Find(inner.entries, MARK) == 0;
    SetPathHead(inner, [MARK, "fullpath"], v, m');
    assert inner.entries[0 := (MARK, m')] == [(MARK, m')];
    var t := OneInclude(a, f, ref, top);
    assert Find(t.entries, a) == 0;
    SetPathHead(t, keys, v, Map([(MARK, m')]));
    assert t.entries[0 := (a, Map([(MARK, m')]))] == OneInclude(a, "/" + ref, ref, top).entries;
  }

  /** One level of `set_value` through an existing key. */
  lemma SetPathHead(t: Tree, keys: seq<string>, v: Tree, c: Tree)
    requires t.Map? && |keys| >= 2 && HasKey(t.entries, keys[0])
    requires SetPath(Get(t.entries, keys[0]), keys[1..], v) == Ok(c)
    ensures SetPath(t, keys, v) == Ok(Map(Assign(t.entries, keys[0], c)))
  {
  }

  /** The loop of `_fixup_folder`, one `set_value` per node. */
  method FixupFolder(t: Tree, ymlpath: string) returns (r: Tree, err: Option<Error>)
    ensures (r, err) == Fixup(t, ymlpath)
  {
    if ymlpath == "" {
      return t, None;
    }
    var collected := Collect(t, "");
    if collected.Fail? {
      return t, Some(collected.error);
    }
    var ns := collected.value;
    var dir := Dirname(ymlpath);
    r := t;
    var i := 0;
    while i < |ns|
      invariant 0 <= i <= |ns|
      invariant FixupNodes(t, dir, ns) == FixupNodes(r, dir, ns[i..])
    {
      assert ns[i..][1..] == ns[i + 1..];
      var n := ns[i];
      if Truthy(n.value) {
        var updated := SetValue(r, FullpathKey(n.xpath), Str(dir + "/" + Text(n.value)));
        if updated.Fail? {
          return r, Some(updated.error);
        }
        r := updated.value;
      }
      i := i + 1;
    }
    return r, None;
  }

  /** What `Config.store(to_abs)` does to a copy of the data: mark the root
      with `to_abs` when one is given, fix the folders, then `YAML.store`. */
  function StoreSpec(t: Tree, toAbs: string): Outcome
  {
    var marked := if toAbs == "" then Ok(t) else SetPath(t, [MARK], Marker(toAbs, None));
    if marked.Fail? then Outcome(t, [], Some(marked.error))
    else
      var fixed := Fixup(marked.value, toAbs);
      if fixed.1.Some? then Outcome(fixed.0, [], fixed.1) else StoreRun(fixed.0)
  }

  lemma SplitMark()
    ensures Split(MARK, '.') == [MARK]
  {
    assert '.' !in MARK;
  }

  class Config {
    /** `_data`: the configuration tree. */
    var data: Tree

    /** `Config()`: an empty configuration. */
    constructor()
      ensures data == Map([])
    {
      data := Map([]);
    }

    /** `loadup(yml_file)`: replace the data by the loaded file. */
    method Loadup(files: Files, path: string, fuel: nat) returns (err: Option<Error>)
      modifies this
      ensures var r := Load(files, path, None, fuel);
        && (r.Ok? ==> err.None? && data == r.value)
        && (r.Fail? ==> err == Some(r.error) && data == old(data))
    {
      if path !in files {
        return Some(NotFound(path));
      }
      var r := Load(files, path, None, fuel);
      if r.Fail? {
        return Some(r.error);
      }
      data := r.value;
      return None;
    }

    /** `overlay(yml_file)`: the loaded file is laid over the data, then the
        included mappings are placed beside `yml_file`; a failing fix-up
        leaves the data as far as it got. */
    method Overlay(files: Files, path: string, fuel: nat) returns (err: Option<Error>)
      modifies this
      ensures var r := Load(files, path, None, fuel);
        && (r.Fail? ==> err == Some(r.error) && data == old(data))
        && (r.Ok? ==> (data, err) == Fixup(Merge.Merged(r.value, old(data)), path))
    {
      if path !in files {
        return Some(NotFound(path));
      }
      var r := Load(files, path, None, fuel);
      if r.Fail? {
        return Some(r.error);
      }
      var merged := Merge.Merge(r.value, data);
      data := merged;
      data, err := FixupFolder(data, path);
    }

    /** `store(to_abs)`: the data is copied before anything is changed, so
        the configuration itself stays as it was. */
    method Store(toAbs: string) returns (o: Outcome)
      ensures data == old(data)
      ensures o == StoreSpec(data, toAbs)
    {
      var copy := data;
      if toAbs != "" {
        SplitMark();
        var marked := Access.SetValue(copy, MARK, Marker(toAbs, None));
        if marked.Fail? {
          return Outcome(copy, [], Some(marked.error));
        }
        copy := marked.value;
      }
      var fixed, err := FixupFolder(copy, toAbs);
      if err.Some? {
        return Outcome(fixed, [], err);
      }
      o := YamlStore.Store(fixed);
    }

    /** `get_value(key, defvalue)` on the data. */
    method GetValue(key: string, def: Tree) returns (r: Result<Tree>)
      ensures r == Lookup(data, Split(key, '.'), def)
    {
      r := Access.GetValue(data, key, def);
    }

    /** `set_value(key, value)` on the data; a failure changes nothing. */
    method SetValue(key: string, v: Tree) returns (err: Option<Error>)
      modifies this
      ensures var r := SetPath(old(data), Split(key, '.'), v);
        && (r.Ok? ==> err.None? && data == r.value)
        && (r.Fail? ==> err == Some(r.error) && data == old(data))
    {
      var r := Access.SetValue(data, key, v);
      if r.Fail? {
        return Some(r.error);
      }
      data := r.value;
      return None;
    }
  }
}
