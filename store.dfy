/** `YAML.collect_node` and `YAML.store` (pysp/conf.py; `collect` and
    `store` in pysp/yaml.py): find the marked mappings of a loaded tree and
    split the tree back into its files, one write per marker. */
module YamlStore {
  import opened Trees
  import opened Paths
  import opened Include

  /** A marker found by `collect_node`: the dotted key path of the marked
      mapping (`''` for the root) and the marker's two fields, as stored. */
  datatype YNode = YNode(xpath: string, fullpath: Tree, value: Tree)

  /** One file written by `store_file`: its path and the mapping dumped into it. */
  datatype Write = Write(path: string, doc: Tree)

  /** The xpath of a child: `xp += ('.' if xp else '') + k`. */
  function Extend(xpath: string, k: string): (r: string)
    ensures xpath == "" ==> r == k
    ensures xpath != "" ==> r == xpath + "." + k
  {
    (if xpath == "" then "" else xpath + ".") + k
  }

  /** The node for a marker value: `ymlo[k]['fullpath']`, `ymlo[k]['value']`. */
  function MarkerNode(m: Tree, xpath: string): (r: Result<YNode>)
    ensures r.Ok? <==> m.Map? && HasKey(m.entries, "fullpath") && HasKey(m.entries, "value")
    ensures r.Ok? ==> r.value == YNode(xpath, Get(m.entries, "fullpath"), Get(m.entries, "value"))
  {
    if !m.Map? then Fail(TypeMismatch)
    else if !HasKey(m.entries, "fullpath") then Fail(KeyMissing("fullpath"))
    else if !HasKey(m.entries, "value") then Fail(KeyMissing("value"))
    else Ok(YNode(xpath, Get(m.entries, "fullpath"), Get(m.entries, "value")))
  }

  /** `collect_node(ymlo, xpath)`: walk the entries in order; the marker
      key yields a node for this mapping, a dict value is searched in turn
      under the extended xpath, and lists and scalars are not entered. */
  function Collect(t: Tree, xpath: string): Result<seq<YNode>>
    decreases t, 1
  {
    if !t.Map? then Fail(TypeMismatch)
    else CollectEntries(t, xpath, |t.entries|)
  }

  function CollectEntries(t: Tree, xpath: string, k: nat): Result<seq<YNode>>
    requires t.Map? && k <= |t.entries|
    decreases t, 0, k
  {
    if k == 0 then Ok([])
    else
      var ns :- CollectEntries(t, xpath, k - 1);
      var key := t.entries[k - 1].0;
      var v := t.entries[k - 1].1;
      if key == MARK then
        var n :- MarkerNode(v, xpath);
        Ok(ns + [n])
      else if v.Map? then
        var sub :- Collect(v, Extend(xpath, key));
        Ok(ns + sub)
      else Ok(ns)
  }

  /** `get_node(ymlo, xpaths)`: the walk is skipped when the first segment
      is empty, which is how the root's `''` xpath reaches the root. */
  function GetNode(g: Tree, xs: seq<string>): Result<Tree>
  {
    if |xs| > 0 && xs[0] != "" then At(g, xs) else Ok(g)
  }

  /** Writing back through the same walk as `GetNode`. */
  function PutNode(g: Tree, xs: seq<string>, v: Tree): (r: Tree)
    requires GetNode(g, xs).Ok?
    ensures GetNode(r, xs) == Ok(v)
  {
    if |xs| > 0 && xs[0] != "" then Put(g, xs, v) else v
  }

  /** Where `store_node` left the tree, the file it wrote if it got that
      far, and the exception that stopped it, if any. */
  datatype Step = Step(tree: Tree, write: Option<Write>, error: Option<Error>)

  /** `store_node(ymlo, node)`: delete the marker of the mapping at the
      node's xpath, write that mapping to `fullpath`, then, when the node's
      value is truthy, replace the mapping in its parent by the text
      `'!include ' + value`. */
  function StoreNode(g: Tree, n: YNode): (s: Step)
    ensures s.error.None? ==> s.write.Some?
  {
    var xs := Split(n.xpath, '.');
    var found := GetNode(g, xs);
    if found.Fail? then Step(g, None, Some(found.error))
    else if !found.value.Map? then Step(g, None, Some(TypeMismatch))
    else if !HasKey(found.value.entries, MARK) then Step(g, None, Some(KeyMissing(MARK)))
    else
      var doc := Map(Delete(found.value.entries, MARK));
      var g1 := PutNode(g, xs, doc);
      if !n.fullpath.Str? then Step(g1, None, Some(TypeMismatch))
      else
        var w := Some(Write(n.fullpath.s, doc));
        var ys := xs[..|xs| - 1];
        var parent := GetNode(g1, ys);
        if !Truthy(n.value) then Step(g1, w, None)
        else if parent.Fail? then Step(g1, w, Some(parent.error))
        else if !n.value.Str? || !parent.value.Map? then Step(g1, w, Some(TypeMismatch))
        else
          var p := Map(Assign(parent.value.entries, xs[|xs| - 1], Str(TAG + " " + n.value.s)));
          Step(PutNode(g1, ys, p), w, None)
  }

  /** The tree, the files written in order, and the exception that ended the run. */
  datatype Outcome = Outcome(tree: Tree, writes: seq<Write>, error: Option<Error>)

  /** The `for n in nodes: store_node(ymlo, n)` loop: stops at the first exception. */
  function StoreAll(g: Tree, ns: seq<YNode>): (o: Outcome)
    ensures |o.writes| <= |ns|
    ensures o.error.None? ==> |o.writes| == |ns|
    decreases |ns|
  {
    if ns == [] then Outcome(g, [], None)
    else
      var s := StoreNode(g, ns[0]);
      var ws := if s.write.Some? then [s.write.value] else [];
      if s.error.Some? then Outcome(s.tree, ws, s.error)
      else
        var o := StoreAll(s.tree, ns[1..]);
        Outcome(o.tree, ws + o.writes, o.error)
  }

  /** `store(ymlo)`: collect the markers, then store each node in turn. */
  function StoreRun(g: Tree): Outcome
  {
    var ns := Collect(g, "");
    if ns.Fail? then Outcome(g, [], Some(ns.error)) else StoreAll(g, ns.value)
  }

  /** The loop of `store`, processing the collected nodes one by one. */
  method Store(g: Tree) returns (o: Outcome)
    ensures o == StoreRun(g)
  {
    var collected := Collect(g, "");
    if collected.Fail? {
      return Outcome(g, [], Some(collected.error));
    }
    var ns := collected.value;
    var t := g;
    var ws: seq<Write> := [];
    var i := 0;
    while i < |ns|
      invariant 0 <= i <= |ns|
      invariant StoreAll(g, ns) == Then(ws, StoreAll(t, ns[i..]))
    {
      assert ns[i..][1..] == ns[i + 1..];
      var s := StoreNode(t, ns[i]);
      if s.write.Some? {
        ws := ws + [s.write.value];
      }
      if s.error.Some? {
        return Outcome(s.tree, ws, s.error);
      }
      t := s.tree;
      i := i + 1;
    }
    return Outcome(t, ws, None);
  }

  /** An outcome preceded by writes already done. */
  function Then(ws: seq<Write>, o: Outcome): Outcome
  {
    Outcome(o.tree, ws + o.writes, o.error)
  }

  lemma StoreNodeShape(g: Tree, n: YNode)
    requires StoreNode(g, n).write.Some?
    ensures var xs := Split(n.xpath, '.');
      var found := GetNode(g, xs);
      && found.Ok? && found.value.Map? && HasKey(found.value.entries, MARK) && n.fullpath.Str?
      && StoreNode(g, n).write.value == Write(n.fullpath.s, Map(Delete(found.value.entries, MARK)))
  {
  }

  /** The file `store_node` writes: the mapping at the node's xpath with
      its marker deleted and every other entry as it was, to the node's
      `fullpath`. */
  lemma StoreNodeWrite(g: Tree, n: YNode)
    requires Dict(g) && StoreNode(g, n).write.Some?
    ensures var xs := Split(n.xpath, '.');
      var w := StoreNode(g, n).write.value;
      && n.fullpath.Str? && w.path == n.fullpath.s
      && GetNode(g, xs).Ok? && GetNode(g, xs).value.Map?
      && HasKey(GetNode(g, xs).value.entries, MARK)
      && w.doc.Map? && !HasKey(w.doc.entries, MARK)
      && (forall k :: k != MARK ==> (HasKey(w.doc.entries, k) <==> HasKey(GetNode(g, xs).value.entries, k)))
      && (forall k :: k != MARK && HasKey(w.doc.entries, k) ==>
            Get(w.doc.entries, k) == Get(GetNode(g, xs).value.entries, k))
  {
    StoreNodeShape(g, n);
    var xs := Split(n.xpath, '.');
    var found := GetNode(g, xs).value;
    if |xs| > 0 && xs[0] != "" {
      AtDict(g, xs);
    }
    assert Dict(found);
    DeleteFacts(found.entries, MARK);
  }

  lemma StoreNodeTreeShape(g: Tree, n: YNode)
    requires StoreNode(g, n).error.None?
    ensures var xs := Split(n.xpath, '.');
      var found := GetNode(g, xs);
      var s := StoreNode(g, n);
      && found.Ok? && found.value.Map? && HasKey(found.value.entries, MARK)
      && var g1 := PutNode(g, xs, Map(Delete(found.value.entries, MARK)));
      && (!Truthy(n.value) ==> s.tree == g1)
      && (Truthy(n.value) ==>
            && n.value.Str? && GetNode(g1, xs[..|xs| - 1]).Ok? && GetNode(g1, xs[..|xs| - 1]).value.Map?
            && s.tree == PutNode(g1, xs[..|xs| - 1],
                 Map(Assign(GetNode(g1, xs[..|xs| - 1]).value.entries, xs[|xs| - 1], Str(TAG + " " + n.value.s)))))
  {
  }

  /** Where `store_node` leaves the tree: a node without a truthy value
      (the top-level document) stays in place with its marker deleted; a
      node with one is replaced, in its parent, by `'!include ' + value`. */
  lemma StoreNodeTree(g: Tree, n: YNode)
    requires StoreNode(g, n).error.None?
    ensures var xs := Split(n.xpath, '.');
      var s := StoreNode(g, n);
      && (!Truthy(n.value) ==> GetNode(s.tree, xs) == Ok(s.write.value.doc))
      && (Truthy(n.value) && xs[0] != "" ==> n.value.Str? && At(s.tree, xs) == Ok(Str(TAG + " " + n.value.s)))
  {
    StoreNodeTreeShape(g, n);
    var xs := Split(n.xpath, '.');
    var s := StoreNode(g, n);
    if !Truthy(n.value) {
      StoreNodeShape(g, n);
    } else if xs[0] != "" {
      var found := GetNode(g, xs).value;
      var g1 := PutNode(g, xs, Map(Delete(found.entries, MARK)));
      var ys := xs[..|xs| - 1];
      var last := xs[|xs| - 1];
      var parent := GetNode(g1, ys).value;
      var x := Str(TAG + " " + n.value.s);
      var p := Map(Assign(parent.entries, last, x));
      AssignHit(parent.entries, last, x);
      SnocLast(xs);
      if ys == [] {
        assert s.tree == p;
      } else {
        assert At(s.tree, ys) == Ok(p);
        AtConcat(s.tree, ys, [last]);
      }
    }
  }

  /** `store_node` on the node of an included mapping `m`, once the parent
      of its xpath is known to be a dict: the marker-free mapping is written
      and the parent's entry becomes the include directive. */
  lemma StoreNodeIncluded(g: Tree, n: YNode, xs: seq<string>, m: Entries, path: string, ref: string)
    requires Split(n.xpath, '.') == xs && |xs| >= 1 && n.fullpath == Str(path) && n.value == Str(ref) && ref != ""
    requires GetNode(g, xs) == Ok(Map(m)) && HasKey(m, MARK)
    requires var g1 := PutNode(g, xs, Map(Delete(m, MARK)));
      GetNode(g1, xs[..|xs| - 1]).Ok? && GetNode(g1, xs[..|xs| - 1]).value.Map?
    ensures var g1 := PutNode(g, xs, Map(Delete(m, MARK)));
      var ys := xs[..|xs| - 1];
      StoreNode(g, n) == Step(PutNode(g1, ys, Map(Assign(GetNode(g1, ys).value.entries, xs[|xs| - 1], Str(TAG + " " + ref)))),
        Some(Write(path, Map(Delete(m, MARK)))), None)
  {
  }

  /** `store_node` on the top-level document's node: the root mapping is
      written without its marker and stays the tree. */
  lemma StoreNodeTop(n: YNode, xs: seq<string>, m: Entries, path: string)
    requires Split(n.xpath, '.') == xs && |xs| >= 1 && xs[0] == ""
    requires n.fullpath == Str(path) && !Truthy(n.value) && HasKey(m, MARK)
    ensures StoreNode(Map(m), n) == Step(Map(Delete(m, MARK)), Some(Write(path, Map(Delete(m, MARK)))), None)
  {
  }

  lemma SnocLast<T>(xs: seq<T>)
    requires |xs| > 0
    ensures xs == xs[..|xs| - 1] + [xs[|xs| - 1]]
  {
  }
}
