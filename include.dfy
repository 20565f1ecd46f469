/** Loading a document with `!include` tags (`YAML.load`, `YAML.include`,
    `YAML.store_mark` in pysp/conf.py and pysp/yaml.py) over an abstract file
    store: every file is already decoded into a tree whose `!include ref`
    tags are `Include(ref)` leaves. */
module Include {
  import opened Trees
  import opened Paths
  import opened Access

  /** The key under which a loaded mapping records where it came from. */
  const MARK := "__include__"

  /** The directive `store` writes back in place of an included mapping. */
  const TAG := "!include"

  /** The files a document can reach: path to decoded content. */
  type Files = map<string, Tree>

  /** The marker dict `{fullpath: ..., value: ...}`; `value` is the include
      reference as written, or None for a top-level document. */
  function Marker(fullpath: string, value: Option<string>): Tree
  {
    Map([("fullpath", Str(fullpath)), ("value", if value.Some? then Str(value.value) else Null)])
  }

  /** `store_mark(yml, fullpath, node_value)`: refuse a value that already
      "contains" the marker key (`in` as Python evaluates it), otherwise
      assign the marker as the dict's newest key. */
  function StoreMark(t: Tree, fullpath: string, value: Option<string>): (r: Result<Tree>)
    ensures r.Fail? <==> !t.Map? || HasKey(t.entries, MARK)
    ensures t.Map? && HasKey(t.entries, MARK) ==> r == Fail(DuplicateMarker(fullpath))
    ensures r.Ok? ==> r.value.Map? && r.value.entries == t.entries + [(MARK, Marker(fullpath, value))]
  {
    var c :- Contains(t, MARK);
    if c then Fail(DuplicateMarker(fullpath))
    else if t.Map? then Ok(Map(Assign(t.entries, MARK, Marker(fullpath, value))))
    else Fail(TypeMismatch)
  }

  /** Removing the marker undoes `store_mark`: the dict is what was decoded. */
  lemma UnmarkAfterMark(t: Tree, fullpath: string, value: Option<string>)
    requires t.Map? && Unique(t.entries) && StoreMark(t, fullpath, value).Ok?
    ensures var m := StoreMark(t, fullpath, value).value.entries;
      Unique(m) && HasKey(m, MARK) && Delete(m, MARK) == t.entries
  {
    var m := StoreMark(t, fullpath, value).value.entries;
    AssignHit(t.entries, MARK, Marker(fullpath, value));
    AssignUnique(t.entries, MARK, Marker(fullpath, value));
    assert Find(m, MARK) == |t.entries| by {
      assert m[|t.entries|].0 == MARK;
    }
    assert m[..|t.entries|] == t.entries;
  }

  /** `load(path, node_value)` of a file in the store: decode it, resolving
      each `!include` relative to this file's directory, then mark the
      result. `fuel` bounds the include depth, standing for Python's
      recursion limit, since include cycles are not detected. */
  function Load(files: Files, path: string, value: Option<string>, fuel: nat): (r: Result<Tree>)
    ensures path !in files ==> r == Fail(NotFound(path))
    ensures r.Ok? ==>
      && r.value.Map? && |r.value.entries| >= 1
      && r.value.entries[|r.value.entries| - 1] == (MARK, Marker(path, value))
    decreases fuel, 0
  {
    if path !in files then Fail(NotFound(path))
    else if fuel == 0 then Fail(RecursionLimit)
    else
      var t :- Resolve(files, Dirname(path), files[path], fuel - 1);
      StoreMark(t, path, value)
  }

  /** The constructor pass of the decoder: every `Include(ref)` becomes the
      loaded file `os.path.join(dir, ref)`, marked with `ref`. */
  function Resolve(files: Files, dir: string, t: Tree, fuel: nat): Result<Tree>
    decreases fuel, 1, t, 1
  {
    match t
    case Include(ref) => Load(files, PathJoin(dir, ref), Some(ref), fuel)
    case Map(es) =>
      var es' :- ResolveEntries(files, dir, t, |es|, fuel);
      Ok(Map(es'))
    case List(xs) =>
      var xs' :- ResolveItems(files, dir, t, |xs|, fuel);
      Ok(List(xs'))
    case _ => Ok(t)
  }

  function ResolveEntries(files: Files, dir: string, t: Tree, k: nat, fuel: nat): (r: Result<Entries>)
    requires t.Map? && k <= |t.entries|
    ensures r.Ok? ==> Keys(r.value) == Keys(t.entries[..k])
    decreases fuel, 1, t, 0, k
  {
    if k == 0 then Ok([])
    else
      var es :- ResolveEntries(files, dir, t, k - 1, fuel);
      var v :- Resolve(files, dir, t.entries[k - 1].1, fuel);
      var e := (t.entries[k - 1].0, v);
      KeysSnoc(es, e);
      KeysTakeStep(t.entries, k);
      Ok(es + [e])
  }

  function ResolveItems(files: Files, dir: string, t: Tree, k: nat, fuel: nat): (r: Result<seq<Tree>>)
    requires t.List? && k <= |t.items|
    ensures r.Ok? ==> |r.value| == k
    decreases fuel, 1, t, 0, k
  {
    if k == 0 then Ok([])
    else
      var xs :- ResolveItems(files, dir, t, k - 1, fuel);
      var v :- Resolve(files, dir, t.items[k - 1], fuel);
      Ok(xs + [v])
  }

  /** A tree with no `!include` tag in it. */
  predicate Plain(t: Tree)
  {
    match t
    case Include(_) => false
    case Map(es) => forall i :: 0 <= i < |es| ==> Plain(es[i].1)
    case List(xs) => forall i :: 0 <= i < |xs| ==> Plain(xs[i])
    case _ => true
  }

  /** A document without tags decodes to itself. */
  lemma {:induction false} ResolvePlain(files: Files, dir: string, t: Tree, fuel: nat)
    requires Plain(t)
    ensures Resolve(files, dir, t, fuel) == Ok(t)
    decreases t, 1
  {
    match t
    case Map(es) => ResolvePlainEntries(files, dir, t, |es|, fuel); TakeAll(es);
    case List(xs) => ResolvePlainItems(files, dir, t, |xs|, fuel); TakeAll(xs);
    case _ =>
  }

  lemma {:induction false} ResolvePlainEntries(files: Files, dir: string, t: Tree, k: nat, fuel: nat)
    requires t.Map? && Plain(t) && k <= |t.entries|
    ensures ResolveEntries(files, dir, t, k, fuel) == Ok(t.entries[..k])
    decreases t, 0, k
  {
    if k > 0 {
      ResolvePlainEntries(files, dir, t, k - 1, fuel);
      ResolvePlain(files, dir, t.entries[k - 1].1, fuel);
      TakeStep(t.entries, k);
    }
  }

  lemma {:induction false} ResolvePlainItems(files: Files, dir: string, t: Tree, k: nat, fuel: nat)
    requires t.List? && Plain(t) && k <= |t.items|
    ensures ResolveItems(files, dir, t, k, fuel) == Ok(t.items[..k])
    decreases t, 0, k
  {
    if k > 0 {
      ResolvePlainItems(files, dir, t, k - 1, fuel);
      ResolvePlain(files, dir, t.items[k - 1], fuel);
      TakeStep(t.items, k);
    }
  }

  /** A file already holding the marker key is refused when loaded. */
  lemma LoadRefusesMarked(files: Files, path: string, value: Option<string>, fuel: nat)
    requires path in files && fuel > 0 && files[path].Map? && HasKey(files[path].entries, MARK)
    ensures Load(files, path, value, fuel).Fail?
  {
    var r := Resolve(files, Dirname(path), files[path], fuel - 1);
    if r.Ok? {
      ResolveKeepsMark(files, Dirname(path), files[path], fuel - 1);
    }
  }

  /** Decoding a mapping that holds the marker key keeps that key. */
  lemma ResolveKeepsMark(files: Files, dir: string, t: Tree, fuel: nat)
    requires t.Map? && HasKey(t.entries, MARK) && Resolve(files, dir, t, fuel).Ok?
    ensures Resolve(files, dir, t, fuel).value.Map?
    ensures HasKey(Resolve(files, dir, t, fuel).value.entries, MARK)
  {
    ResolveEntriesKeys(files, dir, t, fuel);
    TakeAll(t.entries);
    FindSameKeys(t.entries, Resolve(files, dir, t, fuel).value.entries, MARK);
  }

  lemma ResolveEntriesKeys(files: Files, dir: string, t: Tree, fuel: nat)
    requires t.Map? && Resolve(files, dir, t, fuel).Ok?
    ensures Resolve(files, dir, t, fuel).value.Map?
    ensures Keys(Resolve(files, dir, t, fuel).value.entries) == Keys(t.entries[..|t.entries|])
  {
  }

  /** What `store` writes in place of an included mapping: the tag as text. */
  function AsWritten(t: Tree): (r: Tree)
    ensures Plain(r)
  {
    match t
    case Include(ref) => Str(TAG + " " + ref)
    case Map(es) => Map(seq(|es|, i requires 0 <= i < |es| => (es[i].0, AsWritten(es[i].1))))
    case List(xs) => List(seq(|xs|, i requires 0 <= i < |xs| => AsWritten(xs[i])))
    case _ => t
  }
}
