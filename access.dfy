/** Dotted-path access to a configuration tree: `Config.get_value` and
    `Config.set_value` (pysp/conf.py). Both split the key on `.` and walk a
    cursor down one segment at a time. */
module Access {
  import opened Trees
  import opened Paths

  /** Python's `k in data` on whatever the cursor holds: key membership for a
      dict, substring test for a str, element membership for a list, and a
      TypeError for None. */
  function Contains(t: Tree, k: string): (r: Result<bool>)
    ensures r.Fail? <==> !(t.Map? || t.Str? || t.List?)
    ensures t.Map? ==> r == Ok(HasKey(t.entries, k))
  {
    match t
    case Map(es) => Ok(HasKey(es, k))
    case Str(s) => Ok(IsSubstring(k, s))
    case List(xs) => Ok(Str(k) in xs)
    case _ => Fail(TypeMismatch)
  }

  /** The walk of `get_value` over the segments of a key: the default as soon
      as a segment is absent, the value reached otherwise. Indexing a str or
      list cursor that does "contain" the segment raises TypeError. */
  function Lookup(t: Tree, keys: seq<string>, def: Tree): Result<Tree>
    decreases |keys|
  {
    if keys == [] then Ok(t)
    else
      var c :- Contains(t, keys[0]);
      if !c then Ok(def)
      else if t.Map? then Lookup(Get(t.entries, keys[0]), keys[1..], def)
      else Fail(TypeMismatch)
  }

  /** `get_value(key, defvalue, yobject)`. */
  method GetValue(t: Tree, key: string, def: Tree) returns (r: Result<Tree>)
    ensures r == Lookup(t, Split(key, '.'), def)
  {
    var keys := Split(key, '.');
    var data := t;
    var i := 0;
    while i < |keys|
      invariant 0 <= i <= |keys|
      invariant Lookup(t, keys, def) == Lookup(data, keys[i..], def)
    {
      assert keys[i..][1..] == keys[i + 1..];
      var c := Contains(data, keys[i]);
      if c.Fail? {
        return Fail(c.error);
      }
      if !c.value {
        return Ok(def);
      }
      if !data.Map? {
        return Fail(TypeMismatch);
      }
      data := Get(data.entries, keys[i]);
      i := i + 1;
    }
    return Ok(data);
  }

  /** Every cursor the walk of `keys` reaches before its last step is a dict. */
  ghost predicate MapsOnWay(t: Tree, keys: seq<string>)
  {
    forall i :: 0 <= i < |keys| && At(t, keys[..i]).Ok? ==> At(t, keys[..i]).value.Map?
  }

  /** Walking through dicts only, `get_value` never raises: it returns the
      value every segment leads to, or the default when a segment is absent. */
  lemma {:induction false} LookupThroughMaps(t: Tree, keys: seq<string>, def: Tree)
    requires MapsOnWay(t, keys)
    ensures Lookup(t, keys, def) == if At(t, keys).Ok? then At(t, keys) else Ok(def)
    decreases |keys|
  {
    if keys != [] {
      assert keys[..0] == [];
      var k := keys[0];
      if HasKey(t.entries, k) {
        var child := Get(t.entries, k);
        forall i | 0 <= i < |keys[1..]| && At(child, keys[1..][..i]).Ok?
          ensures At(child, keys[1..][..i]).value.Map?
        {
          assert keys[..i + 1] == [k] + keys[1..][..i];
          assert At(t, keys[..i + 1]) == At(child, keys[1..][..i]);
        }
        LookupThroughMaps(child, keys[1..], def);
      }
    }
  }

  /** `set_value` over the segments of a key: missing intermediate segments
      become empty dicts, the last segment is assigned; a cursor that is not
      a dict raises TypeError before anything is changed. */
  function SetPath(t: Tree, keys: seq<string>, v: Tree): Result<Tree>
    requires |keys| >= 1
    decreases |keys|
  {
    if !t.Map? then Fail(TypeMismatch)
    else if |keys| == 1 then Ok(Map(Assign(t.entries, keys[0], v)))
    else
      var child := if HasKey(t.entries, keys[0]) then Get(t.entries, keys[0]) else Map([]);
      var c :- SetPath(child, keys[1..], v);
      Ok(Map(Assign(t.entries, keys[0], c)))
  }

  /** The dicts passed on the way down, rebuilt around a new innermost value. */
  function Rebuild(spine: seq<Entries>, keys: seq<string>, x: Tree): Tree
    requires |spine| <= |keys|
  {
    if spine == [] then x
    else Map(Assign(spine[0], keys[0], Rebuild(spine[1..], keys[1..], x)))
  }

  lemma {:induction false} RebuildSnoc(spine: seq<Entries>, keys: seq<string>, m: Entries, x: Tree)
    requires |spine| < |keys|
    ensures Rebuild(spine + [m], keys, x) == Rebuild(spine, keys, Map(Assign(m, keys[|spine|], x)))
  {
    if spine != [] {
      assert (spine + [m])[1..] == spine[1..] + [m];
      RebuildSnoc(spine[1..], keys[1..], m, x);
    }
  }

  /** A result from below, wrapped back into the dicts passed on the way down. */
  function Lift(spine: seq<Entries>, keys: seq<string>, r: Result<Tree>): Result<Tree>
    requires |spine| <= |keys|
  {
    if r.Fail? then r else Ok(Rebuild(spine, keys, r.value))
  }

  /** One step of the walk: `SetPath` at a dict is `SetPath` at the child
      (or a fresh `{}`), assigned back under the segment. */
  lemma SetPathStep(m: Tree, keys: seq<string>, v: Tree, k: string, rest: seq<string>)
    requires m.Map? && |keys| >= 2 && k == keys[0] && rest == keys[1..]
    ensures var child := if HasKey(m.entries, k) then Get(m.entries, k) else Map([]);
      var r := SetPath(child, rest, v);
      SetPath(m, keys, v) == if r.Fail? then r else Ok(Map(Assign(m.entries, k, r.value)))
  {
  }

  /** `set_value(key, value, yobject)`: the source walks a cursor down,
      inserting `{}` where a segment is missing, and assigns at the end. On
      values the dicts passed on the way down are kept and rebuilt upwards. */
  method SetValue(t: Tree, key: string, v: Tree) returns (r: Result<Tree>)
    ensures r == SetPath(t, Split(key, '.'), v)
  {
    var keys := Split(key, '.');
    var spine: seq<Entries> := [];
    var data := t;
    var d := 0;
    while d < |keys| - 1
      invariant 0 <= d <= |keys| - 1 && |spine| == d
      invariant SetPath(t, keys, v) == Lift(spine, keys, SetPath(data, keys[d..], v))
    {
      if !data.Map? {
        return Fail(TypeMismatch);
      }
      var next := if HasKey(data.entries, keys[d]) then Get(data.entries, keys[d]) else Map([]);
      DescendStep(t, keys, v, spine, data);
      spine := spine + [data.entries];
      data := next;
      d := d + 1;
    }
    if !data.Map? {
      return Fail(TypeMismatch);
    }
    var acc := Map(Assign(data.entries, keys[d], v));
    assert SetPath(data, keys[d..], v) == Ok(acc);
    assert spine[..d] == spine;
    while d > 0
      invariant 0 <= d <= |spine| <= |keys|
      invariant SetPath(t, keys, v) == Ok(Rebuild(spine[..d], keys, acc))
    {
      AscendStep(spine, keys, d, acc);
      acc := Map(Assign(spine[d - 1], keys[d - 1], acc));
      d := d - 1;
    }
    assert spine[..0] == [];
    return Ok(acc);
  }

  lemma DescendStep(t: Tree, keys: seq<string>, v: Tree, spine: seq<Entries>, data: Tree)
    requires |spine| < |keys| - 1 && data.Map?
    requires SetPath(t, keys, v) == Lift(spine, keys, SetPath(data, keys[|spine|..], v))
    ensures var d := |spine|;
      var next := if HasKey(data.entries, keys[d]) then Get(data.entries, keys[d]) else Map([]);
      SetPath(t, keys, v) == Lift(spine + [data.entries], keys, SetPath(next, keys[d + 1..], v))
  {
    var d := |spine|;
    var next := if HasKey(data.entries, keys[d]) then Get(data.entries, keys[d]) else Map([]);
    SetPathStep(data, keys[d..], v, keys[d], keys[d + 1..]);
    var below := SetPath(next, keys[d + 1..], v);
    if below.Ok? {
      RebuildSnoc(spine, keys, data.entries, below.value);
    }
  }

  lemma AscendStep(spine: seq<Entries>, keys: seq<string>, d: nat, acc: Tree)
    requires 0 < d <= |spine| <= |keys|
    ensures Rebuild(spine[..d], keys, acc) == Rebuild(spine[..d - 1], keys, Map(Assign(spine[d - 1], keys[d - 1], acc)))
  {
    SliceSnoc(spine, d);
    RebuildSnoc(spine[..d - 1], keys, spine[d - 1], acc);
  }

  lemma SliceSnoc<T>(s: seq<T>, d: nat)
    requires 0 < d <= |s|
    ensures s[..d] == s[..d - 1] + [s[d - 1]]
  {
  }

  /** After a successful `set_value(key, v)`, the key leads to `v`. */
  lemma {:induction false} GetAfterSet(t: Tree, keys: seq<string>, v: Tree, def: Tree)
    requires |keys| >= 1 && SetPath(t, keys, v).Ok?
    ensures At(SetPath(t, keys, v).value, keys) == Ok(v)
    ensures Lookup(SetPath(t, keys, v).value, keys, def) == Ok(v)
    decreases |keys|
  {
    var k := keys[0];
    if |keys| == 1 {
      AssignHit(t.entries, k, v);
    } else {
      var child := if HasKey(t.entries, k) then Get(t.entries, k) else Map([]);
      var c := SetPath(child, keys[1..], v).value;
      AssignHit(t.entries, k, c);
      GetAfterSet(child, keys[1..], v, def);
    }
  }

  /** One segment down: walking `keys` from a dict that holds `keys[0]` is
      walking the rest from that entry. */
  lemma AtPrefixStep(t: Tree, keys: seq<string>, i: nat)
    requires t.Map? && i < |keys| && HasKey(t.entries, keys[0])
    ensures At(t, keys[..i + 1]) == At(Get(t.entries, keys[0]), keys[1..][..i])
  {
    assert keys[..i + 1][0] == keys[0];
    assert keys[..i + 1][1..] == keys[1..][..i];
  }

  /** `set_value` fails exactly when the walk meets an existing value that is
      not a dict (a missing segment is created, never an error). */
  lemma {:induction false} SetFailsOnlyOnNonMap(t: Tree, keys: seq<string>, v: Tree)
    requires |keys| >= 1
    ensures SetPath(t, keys, v).Fail? <==>
      exists i :: 0 <= i < |keys| && At(t, keys[..i]).Ok? && !At(t, keys[..i]).value.Map?
    decreases |keys|
  {
    assert keys[..0] == [];
    if t.Map? && |keys| > 1 {
      var k := keys[0];
      if HasKey(t.entries, k) {
        var child := Get(t.entries, k);
        SetFailsOnlyOnNonMap(child, keys[1..], v);
        if SetPath(t, keys, v).Fail? {
          var i :| 0 <= i < |keys[1..]| && At(child, keys[1..][..i]).Ok? && !At(child, keys[1..][..i]).value.Map?;
          AtPrefixStep(t, keys, i);
        }
        if i :| 0 <= i < |keys| && At(t, keys[..i]).Ok? && !At(t, keys[..i]).value.Map? {
          assert i > 0;
          AtPrefixStep(t, keys, i - 1);
          assert At(child, keys[1..][..i - 1]).Ok?;
        }
      } else {
        EmptyNeverFails(keys[1..], v);
        forall i | 1 <= i < |keys| ensures At(t, keys[..i]).Fail? {
          assert keys[..i][0] == k;
        }
      }
    } else if t.Map? {
      assert forall i :: 0 <= i < |keys| ==> keys[..i] == [];
    }
  }

  lemma {:induction false} EmptyNeverFails(keys: seq<string>, v: Tree)
    requires |keys| >= 1
    ensures SetPath(Map([]), keys, v).Ok?
    decreases |keys|
  {
    if |keys| > 1 {
      assert !HasKey([], keys[0]);
      EmptyNeverFails(keys[1..], v);
    }
  }

  /** Two key paths part ways: they agree up to some segment and differ there. */
  predicate Diverge(a: seq<string>, b: seq<string>)
  {
    exists j :: 0 <= j < |a| && j < |b| && a[..j] == b[..j] && a[j] != b[j]
  }

  /** `set_value` leaves every entry off its path as it was: a key path that
      parts ways with the one set looks up the same value before and after. */
  lemma SetLeavesOthers(t: Tree, keys: seq<string>, v: Tree, other: seq<string>, def: Tree)
    requires |keys| >= 1 && SetPath(t, keys, v).Ok? && Diverge(keys, other)
    ensures Lookup(SetPath(t, keys, v).value, other, def) == Lookup(t, other, def)
  {
    var j :| 0 <= j < |keys| && j < |other| && keys[..j] == other[..j] && keys[j] != other[j];
    SetLeavesOthersAt(t, keys, v, other, def, j);
  }

  /** `SetPath` on a dict assigns the first segment to what the rest produced. */
  lemma SetPathShape(t: Tree, keys: seq<string>, v: Tree)
    requires |keys| >= 1 && SetPath(t, keys, v).Ok?
    ensures t.Map?
    ensures |keys| == 1 ==> SetPath(t, keys, v).value == Map(Assign(t.entries, keys[0], v))
    ensures |keys| > 1 ==>
      var child := if HasKey(t.entries, keys[0]) then Get(t.entries, keys[0]) else Map([]);
      SetPath(child, keys[1..], v).Ok? &&
      SetPath(t, keys, v).value == Map(Assign(t.entries, keys[0], SetPath(child, keys[1..], v).value))
  {
  }

  lemma {:induction false} SetLeavesOthersAt(t: Tree, keys: seq<string>, v: Tree, other: seq<string>, def: Tree, j: nat)
    requires |keys| >= 1 && SetPath(t, keys, v).Ok?
    requires j < |keys| && j < |other| && keys[..j] == other[..j] && keys[j] != other[j]
    ensures Lookup(SetPath(t, keys, v).value, other, def) == Lookup(t, other, def)
    decreases |keys|, 1
  {
    SetPathShape(t, keys, v);
    var k := keys[0];
    assert t == Map(t.entries);
    if j == 0 {
      var c := if |keys| == 1 then v else SetPath(if HasKey(t.entries, k) then Get(t.entries, k) else Map([]), keys[1..], v).value;
      LookupOffAssigned(t.entries, k, c, other, def);
    } else {
      assert other[0] == k by { assert keys[..j][0] == other[..j][0]; }
      assert keys[1..][..j - 1] == keys[..j][1..] && other[1..][..j - 1] == other[..j][1..];
      SetLeavesOthersBelow(t.entries, keys, v, other, def, j);
    }
  }

  lemma {:induction false} SetLeavesOthersBelow(es: Entries, keys: seq<string>, v: Tree, other: seq<string>, def: Tree, j: nat)
    requires 1 <= j < |keys| && j < |other| && other[0] == keys[0]
    requires keys[1..][..j - 1] == other[1..][..j - 1] && keys[j] != other[j]
    requires SetPath(Map(es), keys, v).Ok?
    ensures Lookup(SetPath(Map(es), keys, v).value, other, def) == Lookup(Map(es), other, def)
    decreases |keys|, 0
  {
    var k := keys[0];
    SetPathShape(Map(es), keys, v);
    var child := if HasKey(es, k) then Get(es, k) else Map([]);
    var c := SetPath(child, keys[1..], v).value;
    LookupOnAssigned(es, k, c, other, def);
    if HasKey(es, k) {
      SetLeavesOthersAt(child, keys[1..], v, other[1..], def, j - 1);
    } else {
      MissingLooksUpDefault(c, keys[1..], v, other[1..], def, j - 1);
    }
  }

  lemma LookupOffAssigned(es: Entries, k: string, c: Tree, other: seq<string>, def: Tree)
    requires |other| >= 1 && other[0] != k
    ensures Lookup(Map(Assign(es, k, c)), other, def) == Lookup(Map(es), other, def)
  {
    AssignOther(es, k, c, other[0]);
  }

  lemma LookupOnAssigned(es: Entries, k: string, c: Tree, other: seq<string>, def: Tree)
    requires |other| >= 1 && other[0] == k
    ensures Lookup(Map(Assign(es, k, c)), other, def) == Lookup(c, other[1..], def)
    ensures HasKey(es, k) ==> Lookup(Map(es), other, def) == Lookup(Get(es, k), other[1..], def)
    ensures !HasKey(es, k) ==> Lookup(Map(es), other, def) == Ok(def)
  {
    AssignHit(es, k, c);
  }

  /** Below a freshly created `{}`, a path that parts ways with the one set
      finds nothing. */
  lemma {:induction false} MissingLooksUpDefault(c: Tree, keys: seq<string>, v: Tree, other: seq<string>, def: Tree, j: nat)
    requires |keys| >= 1 && SetPath(Map([]), keys, v) == Ok(c)
    requires j < |keys| && j < |other| && keys[..j] == other[..j] && keys[j] != other[j]
    ensures Lookup(c, other, def) == Ok(def)
    decreases |keys|
  {
    var k := keys[0];
    var inner := if |keys| == 1 then v else SetPath(Map([]), keys[1..], v).value;
    FreshSetPath(keys, v);
    SingleLookup(k, inner, other, def);
    if j > 0 {
      assert other[0] == k by { assert keys[..j][0] == other[..j][0]; }
      assert keys[1..][..j - 1] == keys[..j][1..] && other[1..][..j - 1] == other[..j][1..];
      MissingLooksUpDefault(inner, keys[1..], v, other[1..], def, j - 1);
    }
  }

  /** `set_value` into an empty dict builds a one-entry dict per segment. */
  lemma FreshSetPath(keys: seq<string>, v: Tree)
    requires |keys| >= 1 && SetPath(Map([]), keys, v).Ok?
    ensures |keys| > 1 ==> SetPath(Map([]), keys[1..], v).Ok?
    ensures SetPath(Map([]), keys, v).value ==
      Map([(keys[0], if |keys| == 1 then v else SetPath(Map([]), keys[1..], v).value)])
  {
    assert !HasKey([], keys[0]);
  }

  /** Looking a path up in a one-entry dict. */
  lemma SingleLookup(k: string, x: Tree, other: seq<string>, def: Tree)
    requires |other| >= 1
    ensures Lookup(Map([(k, x)]), other, def) == if other[0] == k then Lookup(x, other[1..], def) else Ok(def)
  {
    assert HasKey([(k, x)], other[0]) <==> other[0] == k;
  }

  /** Two key paths are equal, part ways, or one extends the other. */
  lemma {:induction false} DivergeOrPrefix(a: seq<string>, b: seq<string>)
    ensures a == b || Diverge(a, b) || (|a| < |b| && b[..|a|] == a) || (|b| < |a| && a[..|b|] == b)
    decreases |a|
  {
    if a != [] && b != [] {
      if a[0] != b[0] {
        assert a[..0] == b[..0];
      } else {
        DivergeOrPrefix(a[1..], b[1..]);
        if Diverge(a[1..], b[1..]) {
          var j :| 0 <= j < |a[1..]| && j < |b[1..]| && a[1..][..j] == b[1..][..j] && a[1..][j] != b[1..][j];
          assert a[..j + 1] == [a[0]] + a[1..][..j] && b[..j + 1] == [b[0]] + b[1..][..j];
        } else if |a| < |b| && a[1..] == b[1..][..|a| - 1] {
          assert b[..|a|] == [b[0]] + b[1..][..|a| - 1];
        } else if |b| < |a| && b[1..] == a[1..][..|b| - 1] {
          assert a[..|b|] == [a[0]] + a[1..][..|b| - 1];
        } else {
          assert a == [a[0]] + a[1..] && b == [b[0]] + b[1..];
        }
      }
    }
  }

  /** A walk that reaches its end passed only through dicts. */
  lemma {:induction false} AtPrefixes(t: Tree, p: seq<string>, i: nat)
    requires At(t, p).Ok? && i < |p|
    ensures At(t, p[..i]).Ok? && At(t, p[..i]).value.Map?
    decreases |p|
  {
    if i == 0 {
      assert p[..0] == [];
    } else {
      AtPrefixes(Get(t.entries, p[0]), p[1..], i - 1);
      AtPrefixStep(t, p, i - 1);
    }
  }

  /** `set_value` keeps every dict on the way of a key path that is the one
      set or parts ways with it, so `set_value` along that path succeeds
      afterwards as it did before. */
  lemma {:induction false} SetKeepsWay(t: Tree, keys: seq<string>, v: Tree, other: seq<string>)
    requires |keys| >= 1 && SetPath(t, keys, v).Ok? && MapsOnWay(t, other)
    requires other == keys || Diverge(keys, other)
    ensures MapsOnWay(SetPath(t, keys, v).value, other)
    decreases |keys|
  {
    SetPathShape(t, keys, v);
    var k := keys[0];
    if other == [] {
    } else if other[0] != k {
      var x := if |keys| == 1 then v else
        SetPath(if HasKey(t.entries, k) then Get(t.entries, k) else Map([]), keys[1..], v).value;
      WayOff(t.entries, k, x, other);
    } else if |keys| == 1 {
      TailsDiverge(keys, other);
      assert other == keys;
      assert MapsOnWay(SetPath(t, keys, v).value, other) by {
        assert forall i :: 0 <= i < |other| ==> other[..i] == [];
      }
    } else {
      var child := if HasKey(t.entries, k) then Get(t.entries, k) else Map([]);
      var c := SetPath(child, keys[1..], v).value;
      WayBelow(t, other, child);
      TailsDiverge(keys, other);
      SetKeepsWay(child, keys[1..], v, other[1..]);
      WayAbove(t.entries, k, c, other);
    }
  }

  /** Assigning a key off the path keeps the dicts on it. */
  lemma WayOff(es: Entries, k: string, x: Tree, other: seq<string>)
    requires |other| >= 1 && other[0] != k && MapsOnWay(Map(es), other)
    ensures MapsOnWay(Map(Assign(es, k, x)), other)
  {
    AssignFacts(es, k, x);
    forall i | 0 <= i < |other| && At(Map(Assign(es, k, x)), other[..i]).Ok?
      ensures At(Map(Assign(es, k, x)), other[..i]).value.Map?
    {
      if i > 0 {
        assert other[..i][0] == other[0];
        assert At(Map(Assign(es, k, x)), other[..i]) == At(Map(es), other[..i]);
      }
    }
  }

  /** The dicts on the way of a path, seen from the first segment's value
      (or from the `{}` that `set_value` creates there). */
  lemma WayBelow(t: Tree, other: seq<string>, child: Tree)
    requires t.Map? && |other| >= 1 && MapsOnWay(t, other)
    requires child == if HasKey(t.entries, other[0]) then Get(t.entries, other[0]) else Map([])
    ensures MapsOnWay(child, other[1..])
  {
    forall i | 0 <= i < |other[1..]| && At(child, other[1..][..i]).Ok?
      ensures At(child, other[1..][..i]).value.Map?
    {
      if HasKey(t.entries, other[0]) {
        AtPrefixStep(t, other, i);
      } else if i > 0 {
        assert !HasKey([], other[1..][..i][0]);
      }
    }
  }

  /** Assigning the path's first segment a value with dicts on the rest of
      the way keeps the dicts on the whole way. */
  lemma WayAbove(es: Entries, k: string, c: Tree, other: seq<string>)
    requires |other| >= 1 && other[0] == k && MapsOnWay(c, other[1..])
    ensures MapsOnWay(Map(Assign(es, k, c)), other)
  {
    AssignFacts(es, k, c);
    forall i | 0 <= i < |other| && At(Map(Assign(es, k, c)), other[..i]).Ok?
      ensures At(Map(Assign(es, k, c)), other[..i]).value.Map?
    {
      if i > 0 {
        assert other[..i][0] == k && other[..i][1..] == other[1..][..i - 1];
      }
    }
  }

  /** Paths that start alike are equal or part ways exactly when their tails are or do. */
  lemma TailsDiverge(keys: seq<string>, other: seq<string>)
    requires |keys| >= 1 && |other| >= 1 && keys[0] == other[0]
    requires other == keys || Diverge(keys, other)
    ensures other[1..] == keys[1..] || Diverge(keys[1..], other[1..])
  {
    if other != keys {
      var j :| 0 <= j < |keys| && j < |other| && keys[..j] == other[..j] && keys[j] != other[j];
      assert j > 0;
      assert keys[1..][..j - 1] == keys[..j][1..] && other[1..][..j - 1] == other[..j][1..];
    }
  }
}
