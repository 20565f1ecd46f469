/** `YAML.merge(newy, defy)` (pysp/conf.py, and the same method in
    pysp/yaml.py): lay the overlay `newy` over the defaults `defy`. */
module Merge {
  import opened Trees

  /** The tree `merge` leaves in `newy` and returns. Where both sides are
      dicts, the entries of `defy` are visited in order: a key `newy` lacks
      is appended with the default value, a key it has is merged again one
      level down. Anywhere else the overlay wins as it is. */
  function Merged(n: Tree, d: Tree): (r: Tree)
    ensures r.Map? <==> n.Map?
    ensures !(n.Map? && d.Map?) ==> r == n
    decreases d, 1
  {
    if n.Map? && d.Map? then Map(MergeEntries(n.entries, d, |d.entries|)) else n
  }

  /** The overlay's entries after the first `k` entries of `defy` were visited. */
  function MergeEntries(n: Entries, d: Tree, k: nat): Entries
    requires d.Map? && k <= |d.entries|
    decreases d, 0, k
  {
    if k == 0 then n else MergeStep(MergeEntries(n, d, k - 1), d.entries[k - 1].0, d.entries[k - 1].1)
  }

  /** One pass of the loop: a missing key takes the default `v`, a present
      one is merged with it. */
  function MergeStep(es: Entries, key: string, v: Tree): Entries
    decreases v, 2
  {
    if HasKey(es, key) then Assign(es, key, Merged(Get(es, key), v)) else Assign(es, key, v)
  }

  /** The loop of `merge`, updating the overlay's entries one default at a time. */
  method Merge(n: Tree, d: Tree) returns (r: Tree)
    ensures r == Merged(n, d)
    decreases d
  {
    if !(n.Map? && d.Map?) {
      return n;
    }
    var es := n.entries;
    var i := 0;
    while i < |d.entries|
      invariant 0 <= i <= |d.entries|
      invariant es == MergeEntries(n.entries, d, i)
    {
      var key := d.entries[i].0;
      var v := d.entries[i].1;
      if key !in Keys(es) {
        es := Assign(es, key, v);
      } else {
        var m := Merge(Get(es, key), v);
        es := Assign(es, key, m);
      }
      i := i + 1;
    }
    return Map(es);
  }

  /** The keys of `ks` that the overlay `n` lacks, in their order. */
  function Fresh(ks: seq<string>, n: Entries): (r: seq<string>)
    ensures forall k :: k in r <==> k in ks && !HasKey(n, k)
  {
    if ks == [] then []
    else
      var last := ks[|ks| - 1];
      Fresh(ks[..|ks| - 1], n) + (if HasKey(n, last) then [] else [last])
  }

  /** The defaults' keys seen after `k` steps: those seen after `k - 1`, and one more. */
  lemma SeenGrows(d: Tree, k: nat, key: string)
    requires d.Map? && 0 < k <= |d.entries|
    ensures key in Keys(d.entries)[..k] <==> key in Keys(d.entries)[..k - 1] || key == d.entries[k - 1].0
  {
    assert Keys(d.entries)[..k] == Keys(d.entries)[..k - 1] + [d.entries[k - 1].0];
  }

  /** In a dict, the key visited at step `k` was not seen before. */
  lemma SeenNew(d: Tree, k: nat)
    requires d.Map? && Unique(d.entries) && 0 < k <= |d.entries|
    ensures d.entries[k - 1].0 !in Keys(d.entries)[..k - 1]
  {
    var seen := Keys(d.entries)[..k - 1];
    forall j | 0 <= j < k - 1 ensures seen[j] != d.entries[k - 1].0 {
      assert seen[j] == Keys(d.entries)[j] == d.entries[j].0;
    }
  }

  /** One pass of the loop adds its key and keeps the others. */
  lemma StepHas(es: Entries, key: string, v: Tree, k': string)
    ensures HasKey(MergeStep(es, key, v), k') <==> HasKey(es, k') || k' == key
  {
    var x := if HasKey(es, key) then Merged(Get(es, key), v) else v;
    if k' == key {
      AssignHit(es, key, x);
    } else {
      AssignOther(es, key, x, k');
    }
  }

  /** One pass of the loop: its key holds the default, or the merge with it. */
  lemma StepHit(es: Entries, key: string, v: Tree)
    ensures HasKey(MergeStep(es, key, v), key)
    ensures Get(MergeStep(es, key, v), key) == if HasKey(es, key) then Merged(Get(es, key), v) else v
  {
    AssignHit(es, key, if HasKey(es, key) then Merged(Get(es, key), v) else v);
  }

  /** One pass of the loop leaves the other keys' values alone. */
  lemma StepOther(es: Entries, key: string, v: Tree, k': string)
    requires k' != key && HasKey(es, k')
    ensures HasKey(MergeStep(es, key, v), k') && Get(MergeStep(es, key, v), k') == Get(es, k')
  {
    AssignOther(es, key, if HasKey(es, key) then Merged(Get(es, key), v) else v, k');
  }

  /** One pass of the loop keeps the key order, appending its key when new. */
  lemma StepKeys(es: Entries, key: string, v: Tree)
    ensures Keys(MergeStep(es, key, v)) == if HasKey(es, key) then Keys(es) else Keys(es) + [key]
  {
    AssignKeys(es, key, if HasKey(es, key) then Merged(Get(es, key), v) else v);
  }

  /** The partial merge holds a key exactly when the overlay does or a
      visited default does. */
  lemma {:induction false} MergeEntriesHas(n: Entries, d: Tree, k: nat, key: string)
    requires d.Map? && k <= |d.entries|
    ensures HasKey(MergeEntries(n, d, k), key) <==> HasKey(n, key) || key in Keys(d.entries)[..k]
    decreases k
  {
    if k > 0 {
      MergeEntriesHas(n, d, k - 1, key);
      SeenGrows(d, k, key);
      StepHas(MergeEntries(n, d, k - 1), d.entries[k - 1].0, d.entries[k - 1].1, key);
    }
  }

  /** What the partial merge holds under one key. */
  lemma {:induction false} MergeEntriesAt(n: Entries, d: Tree, k: nat, key: string)
    requires d.Map? && Unique(d.entries) && k <= |d.entries|
    ensures var es := MergeEntries(n, d, k);
      var seen := key in Keys(d.entries)[..k];
      && (HasKey(es, key) <==> HasKey(n, key) || seen)
      && (HasKey(n, key) && seen ==> Get(es, key) == Merged(Get(n, key), Get(d.entries, key)))
      && (HasKey(n, key) && !seen ==> Get(es, key) == Get(n, key))
      && (!HasKey(n, key) && seen ==> Get(es, key) == Get(d.entries, key))
    decreases k
  {
    MergeEntriesHas(n, d, k, key);
    if k > 0 {
      var es' := MergeEntries(n, d, k - 1);
      var dk := d.entries[k - 1].0;
      var v := d.entries[k - 1].1;
      MergeEntriesAt(n, d, k - 1, key);
      SeenGrows(d, k, key);
      if key == dk {
        SeenNew(d, k);
        MergeEntriesHas(n, d, k - 1, key);
        StepHit(es', dk, v);
        GetOfMember(d.entries, dk, v);
      } else if HasKey(es', key) {
        StepOther(es', dk, v, key);
      }
    }
  }

  /** The partial merge keeps the overlay's keys in their order and appends
      the defaults it lacked, in the defaults' order. */
  lemma {:induction false} MergeEntriesKeys(n: Entries, d: Tree, k: nat)
    requires d.Map? && Unique(d.entries) && k <= |d.entries|
    ensures Keys(MergeEntries(n, d, k)) == Keys(n) + Fresh(Keys(d.entries)[..k], n)
    decreases k
  {
    if k > 0 {
      var es' := MergeEntries(n, d, k - 1);
      var dk := d.entries[k - 1].0;
      MergeEntriesKeys(n, d, k - 1);
      MergeEntriesHas(n, d, k - 1, dk);
      SeenNew(d, k);
      StepKeys(es', dk, d.entries[k - 1].1);
      FreshStep(Keys(d.entries), k, n);
      assert Keys(d.entries)[k - 1] == dk;
      Assoc3(Keys(n), Fresh(Keys(d.entries)[..k - 1], n), if HasKey(n, dk) then [] else [dk]);
    }
  }

  /** Merging into a dict never doubles a key. */
  lemma {:induction false} MergeEntriesUnique(n: Entries, d: Tree, k: nat)
    requires d.Map? && Unique(n) && k <= |d.entries|
    ensures Unique(MergeEntries(n, d, k))
    decreases k
  {
    if k > 0 {
      MergeEntriesUnique(n, d, k - 1);
      StepUnique(MergeEntries(n, d, k - 1), d.entries[k - 1].0, d.entries[k - 1].1);
    }
  }

  /** One pass of the loop never doubles a key. */
  lemma StepUnique(es: Entries, key: string, v: Tree)
    requires Unique(es)
    ensures Unique(MergeStep(es, key, v))
  {
    AssignUnique(es, key, if HasKey(es, key) then Merged(Get(es, key), v) else v);
  }

  lemma Assoc3<T>(a: seq<T>, b: seq<T>, c: seq<T>)
    ensures a + (b + c) == a + b + c
  {
  }

  lemma FreshStep(ks: seq<string>, k: nat, n: Entries)
    requires 0 < k <= |ks|
    ensures Fresh(ks[..k], n) == Fresh(ks[..k - 1], n) + (if HasKey(n, ks[k - 1]) then [] else [ks[k - 1]])
  {
    assert ks[..k][..k - 1] == ks[..k - 1];
  }

  /** Merging two dicts: the keys are the overlay's, in order, followed by
      the defaults the overlay lacked, in order; an overlay-only key keeps its
      value, a default-only key takes the default, a shared key holds the
      merge of the two values; and the result is again a dict. */
  lemma MergedMaps(n: Tree, d: Tree, key: string)
    requires n.Map? && d.Map? && Unique(d.entries)
    ensures var r := Merged(n, d).entries;
      && Keys(r) == Keys(n.entries) + Fresh(Keys(d.entries), n.entries)
      && (Unique(n.entries) ==> Unique(r))
      && (HasKey(r, key) <==> HasKey(n.entries, key) || HasKey(d.entries, key))
      && (HasKey(n.entries, key) && !HasKey(d.entries, key) ==> Get(r, key) == Get(n.entries, key))
      && (!HasKey(n.entries, key) && HasKey(d.entries, key) ==> Get(r, key) == Get(d.entries, key))
      && (HasKey(n.entries, key) && HasKey(d.entries, key) ==>
            Get(r, key) == Merged(Get(n.entries, key), Get(d.entries, key)))
  {
    var m := |d.entries|;
    assert Keys(d.entries)[..m] == Keys(d.entries);
    MergeEntriesAt(n.entries, d, m, key);
    MergeEntriesKeys(n.entries, d, m);
    if Unique(n.entries) {
      MergeEntriesUnique(n.entries, d, m);
    }
  }

  /** Merging a dict tree with itself changes nothing. */
  lemma {:induction false} MergeSelf(t: Tree)
    requires Dict(t)
    ensures Merged(t, t) == t
    decreases t, 1
  {
    if t.Map? {
      MergeSelfEntries(t, |t.entries|);
    }
  }

  lemma {:induction false} MergeSelfEntries(t: Tree, k: nat)
    requires t.Map? && Dict(t) && k <= |t.entries|
    ensures MergeEntries(t.entries, t, k) == t.entries
    decreases t, 0, k
  {
    if k > 0 {
      var es := t.entries;
      MergeSelfEntries(t, k - 1);
      var key := es[k - 1].0;
      var v := es[k - 1].1;
      GetOfMember(es, key, v);
      assert Dict(v);
      MergeSelf(v);
      assert es[Find(es, key)] == (key, v);
    }
  }

  /** An empty overlay yields the defaults as they are. */
  lemma EmptyOverlay(d: Tree)
    requires d.Map? && Unique(d.entries)
    ensures Merged(Map([]), d) == d
  {
    EmptyOverlayEntries(d, |d.entries|);
    assert d.entries[..|d.entries|] == d.entries;
  }

  lemma {:induction false} EmptyOverlayEntries(d: Tree, k: nat)
    requires d.Map? && Unique(d.entries) && k <= |d.entries|
    ensures MergeEntries([], d, k) == d.entries[..k]
    decreases k
  {
    if k > 0 {
      EmptyOverlayEntries(d, k - 1);
      var dk := d.entries[k - 1].0;
      var es' := d.entries[..k - 1];
      assert dk !in Keys(es') by {
        forall j | 0 <= j < k - 1 ensures Keys(es')[j] != dk {
          assert Keys(es')[j] == d.entries[j].0;
        }
      }
      assert d.entries[..k] == es' + [d.entries[k - 1]];
    }
  }

  /** Two dict trees merge into a dict tree. */
  lemma {:induction false} MergedDict(n: Tree, d: Tree)
    requires Dict(n) && Dict(d)
    ensures Dict(Merged(n, d))
    decreases d, 1
  {
    if n.Map? && d.Map? {
      MergedDictEntries(n, d, |d.entries|);
    }
  }

  lemma {:induction false} MergedDictEntries(n: Tree, d: Tree, k: nat)
    requires n.Map? && d.Map? && Dict(n) && Dict(d) && k <= |d.entries|
    ensures Dict(Map(MergeEntries(n.entries, d, k)))
    decreases d, 0, k
  {
    if k > 0 {
      MergedDictEntries(n, d, k - 1);
      var es' := MergeEntries(n.entries, d, k - 1);
      var dk := d.entries[k - 1].0;
      var v := d.entries[k - 1].1;
      assert Dict(v);
      var x := if HasKey(es', dk) then Merged(Get(es', dk), v) else v;
      if HasKey(es', dk) {
        var p := Find(es', dk);
        assert Dict(es'[p].1);
        MergedDict(Get(es', dk), v);
      }
      AssignDict(es', dk, x);
    }
  }

  /** The vehicle overlay of the configuration tests: the user's suv.QM6
      settings win over the defaults, the default sedan is kept, and the
      user's extra colour stays. */
  lemma OverlayVehicle()
    ensures
      var qm6d := Map([("transmission", Str("cvt"))]);
      var qm6u := Map([("transmission", Str("CVT")), ("color", Str("cloud-perl"))]);
      var sedan := Map([("SM6", Map([("transmission", Str("cvt"))]))]);
      var default := Map([("car", Map([("sedan", sedan), ("suv", Map([("QM6", qm6d)]))]))]);
      var user := Map([("car", Map([("suv", Map([("QM6", qm6u)]))]))]);
      Merged(user, default) == Map([("car", Map([("suv", Map([("QM6", qm6u)])), ("sedan", sedan)]))])
  {
    var qm6d := Map([("transmission", Str("cvt"))]);
    var qm6u := Map([("transmission", Str("CVT")), ("color", Str("cloud-perl"))]);
    var sedan := Map([("SM6", Map([("transmission", Str("cvt"))]))]);
    var suvd := Map([("QM6", qm6d)]);
    var suvu := Map([("QM6", qm6u)]);
    var card := Map([("sedan", sedan), ("suv", suvd)]);
    var caru := Map([("suv", suvu)]);
    assert Merged(Str("CVT"), Str("cvt")) == Str("CVT");
    assert MergeEntries(qm6u.entries, qm6d, 1) == qm6u.entries;
    assert Merged(qm6u, qm6d) == qm6u;
    assert MergeEntries(suvu.entries, suvd, 1) == suvu.entries;
    assert Merged(suvu, suvd) == suvu;
    assert MergeEntries(caru.entries, card, 1) == [("suv", suvu), ("sedan", sedan)];
    assert MergeEntries(caru.entries, card, 2) == [("suv", suvu), ("sedan", sedan)];
    assert Merged(caru, card) == Map([("suv", suvu), ("sedan", sedan)]);
    var default := Map([("car", card)]);
    var user := Map([("car", caru)]);
    assert Find(user.entries, "car") == 0;
    assert MergeEntries(user.entries, default, 1) == [("car", Merged(caru, card))];
  }
}
