/** The in-memory document tree of pysp's YAML layer and the dictionary
    operations the code performs on it.

    A decoded YAML document is a nest of Python dicts, lists and scalars.
    Dicts keep insertion order, which decides the order in which `store`
    visits the include markers, so a mapping is an ordered association list
    with unique keys and Python's assignment rule: assigning an existing key
    keeps its position, assigning a new key appends it. */
module Trees {

  /** Errors the code raises, by the kind of Python exception behind them. */
  datatype Error =
    | NotFound(path: string)          // PyspError 'Not Exists', or the file store has no such file
    | DuplicateMarker(path: string)   // PyspError 'Already use __include__ key in ...'
    | KeyMissing(key: string)         // KeyError from dict indexing or `del`
    | TypeMismatch                    // TypeError/AttributeError from using a non-dict as a dict
    | Unsupported                     // StrExpand.Error('No Rules for dict.')
    | LoopLimit                       // StrExpand.Error('Infinite Repeat Error: ...')
    | RecursionLimit                  // RecursionError from an include cycle

  datatype Result<+T> = Ok(value: T) | Fail(error: Error) {
    predicate IsFailure() { Fail? }
    function PropagateFailure<U>(): Result<U> requires Fail? { Fail(error) }
    function Extract(): T requires Ok? { value }
  }

  datatype Option<+T> = None | Some(value: T)

  /** A decoded document. `Include(ref)` is the `!include ref` tag as it
      stands in a file before it is resolved; a loaded tree has none. Numbers
      and booleans are represented by their text in `Str`. */
  datatype Tree =
    | Map(entries: seq<(string, Tree)>)
    | List(items: seq<Tree>)
    | Str(s: string)
    | Null
    | Include(ref: string)

  type Entries = seq<(string, Tree)>

  /** The keys of a mapping, in insertion order. */
  function Keys(es: Entries): (ks: seq<string>)
    ensures |ks| == |es|
    ensures forall i :: 0 <= i < |es| ==> ks[i] == es[i].0
  {
    if es == [] then [] else [es[0].0] + Keys(es[1..])
  }

  /** Python dicts never hold a key twice. */
  predicate Unique(es: Entries)
  {
    forall i, j :: 0 <= i < j < |es| ==> es[i].0 != es[j].0
  }

  /** Position of key `k`, or -1: the slot a dict lookup finds. */
  function Find(es: Entries, k: string): (i: int)
    ensures -1 <= i < |es|
    ensures 0 <= i ==> es[i].0 == k && forall j :: 0 <= j < i ==> es[j].0 != k
    ensures i < 0 <==> k !in Keys(es)
  {
    if es == [] then -1
    else if es[0].0 == k then 0
    else
      var j := Find(es[1..], k);
      assert Keys(es) == [es[0].0] + Keys(es[1..]);
      if j < 0 then -1 else j + 1
  }

  /** `k in d` for a dict `d`. */
  predicate HasKey(es: Entries, k: string)
  {
    Find(es, k) >= 0
  }

  /** `d[k]` for a dict `d` that holds `k`. */
  function Get(es: Entries, k: string): (v: Tree)
    requires HasKey(es, k)
    ensures (k, v) in es
  {
    es[Find(es, k)].1
  }

  /** Two entry lists with the same keys slot for slot find every key at the same place. */
  lemma FindSameKeys(es: Entries, r: Entries, k: string)
    requires Keys(es) == Keys(r)
    ensures Find(r, k) == Find(es, k)
  {
    var a, b := Find(es, k), Find(r, k);
    if a >= 0 && b >= 0 {
      assert Keys(r)[a] == k && Keys(es)[b] == k;
    }
  }

  /** `d[k] = v`: overwrite in place when `k` is present, append otherwise. */
  function Assign(es: Entries, k: string, v: Tree): Entries
  {
    var i := Find(es, k);
    if i >= 0 then es[i := (k, v)] else es + [(k, v)]
  }

  /** After `d[k] = v` the key holds `v`, every other key keeps its value,
      the key order is unchanged or extended by `k`, and no key is doubled. */
  lemma AssignFacts(es: Entries, k: string, v: Tree)
    ensures var r := Assign(es, k, v);
      && HasKey(r, k) && Get(r, k) == v
      && (forall k' {:trigger HasKey(r, k')} :: k' != k ==> (HasKey(r, k') <==> HasKey(es, k')))
      && (forall k' {:trigger Get(r, k')} :: k' != k && HasKey(es, k') ==> Get(r, k') == Get(es, k'))
      && Keys(r) == (if HasKey(es, k) then Keys(es) else Keys(es) + [k])
      && (Unique(es) ==> Unique(r))
  {
    var r := Assign(es, k, v);
    AssignHit(es, k, v);
    AssignKeys(es, k, v);
    forall k' | k' != k
      ensures HasKey(r, k') <==> HasKey(es, k')
      ensures HasKey(es, k') ==> Get(r, k') == Get(es, k')
    {
      AssignOther(es, k, v, k');
    }
    if Unique(es) {
      AssignUnique(es, k, v);
    }
  }

  /** After `d[k] = v` the key holds `v`. */
  lemma AssignHit(es: Entries, k: string, v: Tree)
    ensures HasKey(Assign(es, k, v), k) && Get(Assign(es, k, v), k) == v
  {
    var r := Assign(es, k, v);
    var i := Find(es, k);
    if i >= 0 {
      FindIs(r, k, i);
    } else {
      forall j | 0 <= j < |es| ensures r[j].0 != k {
        assert Keys(es)[j] == es[j].0;
      }
      FindIs(r, k, |es|);
    }
  }

  /** `d[k] = v` keeps the key order, or appends `k` when it is new. */
  lemma AssignKeys(es: Entries, k: string, v: Tree)
    ensures Keys(Assign(es, k, v)) == if HasKey(es, k) then Keys(es) else Keys(es) + [k]
  {
    var r := Assign(es, k, v);
    var ks := if HasKey(es, k) then Keys(es) else Keys(es) + [k];
    forall m | 0 <= m < |r| ensures Keys(r)[m] == ks[m] {
      if m < |es| {
        assert Keys(es)[m] == es[m].0;
      }
    }
  }

  /** `d[k] = v` leaves every other key's presence and value alone. */
  lemma AssignOther(es: Entries, k: string, v: Tree, k': string)
    requires k' != k
    ensures HasKey(Assign(es, k, v), k') <==> HasKey(es, k')
    ensures HasKey(es, k') ==> Get(Assign(es, k, v), k') == Get(es, k')
  {
    var r := Assign(es, k, v);
    if HasKey(es, k) {
      AssignKeys(es, k, v);
      FindSameKeys(es, r, k');
    } else {
      AppendFind(es, k, v, k');
    }
  }

  /** `d[k] = v` on a dict gives a dict. */
  lemma AssignUnique(es: Entries, k: string, v: Tree)
    requires Unique(es)
    ensures Unique(Assign(es, k, v))
  {
    var r := Assign(es, k, v);
    AssignKeys(es, k, v);
    forall i, j | 0 <= i < j < |r| ensures r[i].0 != r[j].0 {
      assert Keys(r)[i] == r[i].0 && Keys(r)[j] == r[j].0;
      if j < |es| {
        assert Keys(es)[i] == es[i].0 && Keys(es)[j] == es[j].0;
      } else {
        assert Keys(es)[i] == es[i].0;
      }
    }
  }

  lemma AppendFind(es: Entries, k: string, v: Tree, k': string)
    requires !HasKey(es, k)
    ensures Find(es + [(k, v)], k') == if k' == k then |es| else Find(es, k')
  {
    var r := es + [(k, v)];
    assert Keys(r) == Keys(es) + [k];
    var p := Find(es, k');
    if p >= 0 {
      assert r[p] == es[p];
    }
  }

  /** In a dict every key has one entry, so membership of a pair fixes the lookup. */
  lemma GetOfMember(es: Entries, k: string, v: Tree)
    requires Unique(es) && (k, v) in es
    ensures HasKey(es, k) && Get(es, k) == v
  {
    var p :| 0 <= p < |es| && es[p] == (k, v);
    assert Keys(es)[p] == k;
    assert Find(es, k) == p;
  }

  /** `del d[k]` for a dict that holds `k`; the remaining entries keep their order. */
  function Delete(es: Entries, k: string): (r: Entries)
    requires HasKey(es, k)
    ensures |r| == |es| - 1
    ensures Keys(r) == Keys(es)[..Find(es, k)] + Keys(es)[Find(es, k) + 1..]
  {
    var i := Find(es, k);
    KeysDrop(es, i);
    es[..i] + es[i + 1..]
  }

  /** In a dict, `del d[k]` removes `k` and keeps every other key and value. */
  lemma DeleteFacts(es: Entries, k: string)
    requires Unique(es) && HasKey(es, k)
    ensures var r := Delete(es, k);
      && !HasKey(r, k) && Unique(r)
      && (forall k' {:trigger HasKey(r, k')} :: k' != k ==> (HasKey(r, k') <==> HasKey(es, k')))
      && (forall k' {:trigger Get(r, k')} :: k' != k && HasKey(es, k') ==> Get(r, k') == Get(es, k'))
  {
    DeleteAt(es, Find(es, k));
  }

  lemma DeleteAt(es: Entries, i: nat)
    requires Unique(es) && i < |es|
    ensures var r := es[..i] + es[i + 1..];
      && !HasKey(r, es[i].0) && Unique(r)
      && (forall k' {:trigger HasKey(r, k')} :: k' != es[i].0 ==> (HasKey(r, k') <==> HasKey(es, k')))
      && (forall k' {:trigger Get(r, k')} :: k' != es[i].0 && HasKey(es, k') ==> Get(r, k') == Get(es, k'))
  {
    DeleteAtUnique(es, i);
    DeleteAtKeys(es, i);
    forall k' | k' != es[i].0
      ensures HasKey(es[..i] + es[i + 1..], k') <==> HasKey(es, k')
      ensures HasKey(es, k') ==> Get(es[..i] + es[i + 1..], k') == Get(es, k')
    {
      DeleteAtOther(es, i, k');
    }
  }

  lemma DeleteAtUnique(es: Entries, i: nat)
    requires Unique(es) && i < |es|
    ensures Unique(es[..i] + es[i + 1..])
  {
    var r := es[..i] + es[i + 1..];
    forall a, b | 0 <= a < b < |r| ensures r[a].0 != r[b].0 {
      var a', b' := if a < i then a else a + 1, if b < i then b else b + 1;
      assert r[a] == es[a'] && r[b] == es[b'];
    }
  }

  /** The keys after dropping slot `i` are the keys without slot `i`. */
  lemma KeysDrop(es: Entries, i: nat)
    requires i < |es|
    ensures Keys(es[..i] + es[i + 1..]) == Keys(es)[..i] + Keys(es)[i + 1..]
  {
    KeysAppend(es[..i], es[i + 1..]);
    KeysPrefix(es, i);
    KeysSuffix(es, i + 1);
  }

  /** Appending an entry appends its key. */
  lemma KeysSnoc(es: Entries, e: (string, Tree))
    ensures Keys(es + [e]) == Keys(es) + [e.0]
  {
    KeysAppend(es, [e]);
    assert Keys([e]) == [e.0];
  }

  /** The keys of the first `k` entries: those of the first `k - 1`, then one more. */
  lemma KeysTakeStep(es: Entries, k: nat)
    requires 0 < k <= |es|
    ensures Keys(es[..k]) == Keys(es[..k - 1]) + [es[k - 1].0]
  {
    KeysPrefix(es, k);
    KeysPrefix(es, k - 1);
    TakeStep(Keys(es), k);
  }

  lemma TakeAll<T>(s: seq<T>)
    ensures s[..|s|] == s
  {
  }

  lemma TakeStep<T>(s: seq<T>, k: nat)
    requires 0 < k <= |s|
    ensures s[..k] == s[..k - 1] + [s[k - 1]]
  {
  }

  lemma {:induction false} KeysAppend(a: Entries, b: Entries)
    ensures Keys(a + b) == Keys(a) + Keys(b)
  {
    if a == [] {
      assert a + b == b;
    } else {
      assert (a + b)[1..] == a[1..] + b;
      KeysAppend(a[1..], b);
    }
  }

  lemma KeysPrefix(es: Entries, i: nat)
    requires i <= |es|
    ensures Keys(es[..i]) == Keys(es)[..i]
  {
    var ks := Keys(es[..i]);
    forall m | 0 <= m < i ensures ks[m] == Keys(es)[..i][m] {
      assert es[..i][m] == es[m];
    }
  }

  lemma KeysSuffix(es: Entries, i: nat)
    requires i <= |es|
    ensures Keys(es[i..]) == Keys(es)[i..]
  {
    var ks := Keys(es[i..]);
    forall m | 0 <= m < |es| - i ensures ks[m] == Keys(es)[i..][m] {
      assert es[i..][m] == es[i + m];
    }
  }

  lemma DeleteAtKeys(es: Entries, i: nat)
    requires Unique(es) && i < |es|
    ensures Keys(es[..i] + es[i + 1..]) == Keys(es)[..i] + Keys(es)[i + 1..]
    ensures !HasKey(es[..i] + es[i + 1..], es[i].0)
  {
    KeysDrop(es, i);
    var r := es[..i] + es[i + 1..];
    if HasKey(r, es[i].0) {
      var q := Find(r, es[i].0);
      DropAt(es, i, q);
      assert false;
    }
  }

  lemma DeleteAtOther(es: Entries, i: nat, k': string)
    requires Unique(es) && i < |es| && k' != es[i].0
    ensures HasKey(es[..i] + es[i + 1..], k') <==> HasKey(es, k')
    ensures HasKey(es, k') ==> Get(es[..i] + es[i + 1..], k') == Get(es, k')
  {
    if HasKey(es, k') {
      DropKeeps(es, i, k');
    }
    if HasKey(es[..i] + es[i + 1..], k') {
      DropAdds(es, i, k');
    }
  }

  lemma DropKeeps(es: Entries, i: nat, k': string)
    requires i < |es| && k' != es[i].0 && HasKey(es, k')
    ensures HasKey(es[..i] + es[i + 1..], k') && Get(es[..i] + es[i + 1..], k') == Get(es, k')
  {
    DropFind(es, i, Find(es, k'));
  }

  /** Dropping slot `i` leaves the first slot of any other key reachable, holding the same value. */
  lemma DropFind(es: Entries, i: nat, p: nat)
    requires i < |es| && p < |es| && p != i
    requires forall j :: 0 <= j < p ==> es[j].0 != es[p].0
    ensures HasKey(es[..i] + es[i + 1..], es[p].0) && Get(es[..i] + es[i + 1..], es[p].0) == es[p].1
  {
    var r := es[..i] + es[i + 1..];
    var q := if p < i then p else p - 1;
    DropAt(es, i, q);
    forall j | 0 <= j < q ensures r[j].0 != es[p].0 {
      DropAt(es, i, j);
    }
    FindIs(r, es[p].0, q);
  }

  /** The first slot holding `k` is where `Find` stops. */
  lemma FindIs(es: Entries, k: string, q: nat)
    requires q < |es| && es[q].0 == k
    requires forall j :: 0 <= j < q ==> es[j].0 != k
    ensures Find(es, k) == q
  {
    assert Keys(es)[q] == k;
  }

  lemma DropAdds(es: Entries, i: nat, k': string)
    requires i < |es| && HasKey(es[..i] + es[i + 1..], k')
    ensures HasKey(es, k')
  {
    var r := es[..i] + es[i + 1..];
    var q := Find(r, k');
    DropAt(es, i, q);
    var p := if q < i then q else q + 1;
    assert Keys(es)[p] == k';
  }

  /** Slot `q` after dropping slot `i`. */
  lemma DropAt<T>(s: seq<T>, i: nat, q: nat)
    requires i < |s| && q < |s| - 1
    ensures (s[..i] + s[i + 1..])[q] == s[if q < i then q else q + 1]
  {
  }

  /** In a dict, each key is found at its own slot. */
  lemma FindUnique(es: Entries, p: nat)
    requires Unique(es) && p < |es|
    ensures Find(es, es[p].0) == p && HasKey(es, es[p].0) && Get(es, es[p].0) == es[p].1
  {
    assert Keys(es)[p] == es[p].0;
  }

  /** Python truthiness of a decoded value (`if node.value:`). */
  predicate Truthy(t: Tree)
  {
    match t
    case Null => false
    case Str(s) => s != ""
    case List(xs) => xs != []
    case Map(es) => es != []
    case Include(_) => true
  }

  /** Chained indexing `t[p0][p1]...`: every cursor must be a dict holding the key. */
  function At(t: Tree, path: seq<string>): (r: Result<Tree>)
    decreases path
  {
    if path == [] then Ok(t)
    else if !t.Map? then Fail(TypeMismatch)
    else if !HasKey(t.entries, path[0]) then Fail(KeyMissing(path[0]))
    else At(Get(t.entries, path[0]), path[1..])
  }

  /** Chained assignment `t[p0]...[pn] = v` at a place that `At` reaches. */
  function Put(t: Tree, path: seq<string>, v: Tree): (r: Tree)
    requires At(t, path).Ok?
    ensures At(r, path) == Ok(v)
    decreases path
  {
    if path == [] then v
    else
      var c := Put(Get(t.entries, path[0]), path[1..], v);
      AssignHit(t.entries, path[0], c);
      Map(Assign(t.entries, path[0], c))
  }

  /** Every mapping in the tree, at any depth, is a proper dict (no key twice). */
  predicate Dict(t: Tree)
  {
    match t
    case Map(es) => Unique(es) && forall i :: 0 <= i < |es| ==> Dict(es[i].1)
    case List(xs) => forall i :: 0 <= i < |xs| ==> Dict(xs[i])
    case _ => true
  }

  /** Assigning a dict tree into a dict keeps it a dict tree. */
  lemma AssignDict(es: Entries, k: string, x: Tree)
    requires Dict(Map(es)) && Dict(x)
    ensures Dict(Map(Assign(es, k, x)))
  {
    AssignUnique(es, k, x);
    var r := Assign(es, k, x);
    var p := Find(es, k);
    forall i | 0 <= i < |r| ensures Dict(r[i].1) {
      if (p >= 0 && i != p) || (p < 0 && i < |es|) {
        assert r[i] == es[i];
      }
    }
  }

  /** Walking `a` then `b` is walking `a + b`. */
  lemma {:induction false} AtConcat(t: Tree, a: seq<string>, b: seq<string>)
    requires At(t, a).Ok?
    ensures At(t, a + b) == At(At(t, a).value, b)
    decreases a
  {
    if a != [] {
      var p := a + b;
      assert p[0] == a[0];
      assert p[1..] == a[1..] + b;
      AtConcat(Get(t.entries, a[0]), a[1..], b);
    } else {
      assert a + b == b;
    }
  }

  /** Every value inside a dict tree is a dict tree. */
  lemma {:induction false} AtDict(t: Tree, path: seq<string>)
    requires Dict(t) && At(t, path).Ok?
    ensures Dict(At(t, path).value)
    decreases path
  {
    if path != [] {
      var i := Find(t.entries, path[0]);
      assert Dict(t.entries[i].1);
      AtDict(Get(t.entries, path[0]), path[1..]);
    }
  }

  /** Assigning a key twice keeps only the second value. */
  lemma AssignTwice(es: Entries, k: string, a: Tree, b: Tree)
    ensures Assign(Assign(es, k, a), k, b) == Assign(es, k, b)
  {
    var r := Assign(es, k, a);
    if HasKey(es, k) {
      assert Keys(r) == Keys(es);
      FindSameKeys(es, r, k);
    } else {
      AppendFind(es, k, a, k);
    }
  }

  /** A second chained assignment at the same place overrides the first. */
  lemma {:induction false} PutPut(t: Tree, path: seq<string>, a: Tree, b: Tree)
    requires At(t, path).Ok?
    ensures Put(Put(t, path, a), path, b) == Put(t, path, b)
    decreases path
  {
    if path != [] {
      var c := Get(t.entries, path[0]);
      var c1 := Put(c, path[1..], a);
      PutPut(c, path[1..], a, b);
      AssignHit(t.entries, path[0], c1);
      AssignTwice(t.entries, path[0], c1, Put(c, path[1..], b));
    }
  }

  /** Assigning one level deeper is assigning the key in the dict above. */
  lemma {:induction false} PutStep(t: Tree, path: seq<string>, k: string, v: Tree)
    requires At(t, path + [k]).Ok?
    ensures At(t, path).Ok? && At(t, path).value.Map? && HasKey(At(t, path).value.entries, k)
    ensures Put(t, path + [k], v) == Put(t, path, Map(Assign(At(t, path).value.entries, k, v)))
    decreases path
  {
    if path == [] {
      assert path + [k] == [k];
    } else {
      var p := path + [k];
      assert p[0] == path[0] && p[1..] == path[1..] + [k];
      var c := Get(t.entries, path[0]);
      PutStep(c, path[1..], k, v);
      var m := Map(Assign(At(c, path[1..]).value.entries, k, v));
      assert At(t, path) == At(c, path[1..]);
      calc {
        Put(t, p, v);
        Map(Assign(t.entries, path[0], Put(c, path[1..] + [k], v)));
        Map(Assign(t.entries, path[0], Put(c, path[1..], m)));
        Put(t, path, m);
      }
    }
  }

  /** Assigning what is already there changes nothing. */
  lemma {:induction false} PutSame(t: Tree, path: seq<string>)
    requires At(t, path).Ok?
    ensures Put(t, path, At(t, path).value) == t
    decreases path
  {
    if path != [] {
      var i := Find(t.entries, path[0]);
      PutSame(t.entries[i].1, path[1..]);
      assert t.entries[i := (path[0], t.entries[i].1)] == t.entries;
    }
  }

  /** `str(x)` of a decoded value: a string is itself, None is `None`, and a
      container prints as Python prints it (strings quoted, items separated
      by `, `). */
  function Text(t: Tree): string
    decreases t, 1
  {
    match t
    case Str(s) => s
    case Null => "None"
    case Include(r) => "!include " + r
    case List(xs) => "[" + ReprItems(t, |xs|) + "]"
    case Map(es) => "{" + ReprEntries(t, |es|) + "}"
  }

  /** `repr(x)`: like `str`, but a string is quoted. */
  function Repr(t: Tree): string
    decreases t, 2
  {
    if t.Str? then Quote(t.s) else Text(t)
  }

  /** `repr(s)` of a string: in double quotes when it holds `'` and no `"`,
      otherwise in single quotes, with the body escaped. */
  function Quote(s: string): (r: string)
    ensures |r| >= 2 && r[0] == r[|r| - 1] && (r[0] == '\'' || r[0] == '"')
    ensures r[0] == '"' <==> '\'' in s && '"' !in s
    ensures Unescape(r[1..|r| - 1]) == s
  {
    var q := QuoteChar(s);
    var body := Escaped(s, q);
    UnescapeEscaped(s, q);
    assert ([q] + body + [q])[1..|body| + 1] == body;
    [q] + body + [q]
  }

  function QuoteChar(s: string): char
  {
    if '\'' in s && '"' !in s then '"' else '\''
  }

  /** The body of `repr`: the quote in use and backslashes get a backslash,
      tab, newline and carriage return their letter escapes, and the other
      ASCII control characters a `\xhh` escape. */
  function Escaped(s: string, q: char): string
  {
    if s == [] then [] else EscapeChar(s[0], q) + Escaped(s[1..], q)
  }

  function EscapeChar(c: char, q: char): string
  {
    if c == q || c == '\\' then ['\\', c]
    else if c == '\t' then "\\t"
    else if c == '\n' then "\\n"
    else if c == '\r' then "\\r"
    else if c as int < 32 || c as int == 127 then "\\x" + [HexDigit(c as int / 16), HexDigit(c as int % 16)]
    else [c]
  }

  function HexDigit(d: int): (c: char)
    requires 0 <= d < 16
    ensures HexValue(c) == d
  {
    if d < 10 then ('0' as int + d) as char else ('a' as int + d - 10) as char
  }

  function HexValue(c: char): (v: int)
    ensures 0 <= v < 16
  {
    if '0' <= c <= '9' then c as int - '0' as int
    else if 'a' <= c <= 'f' then c as int - 'a' as int + 10
    else 0
  }

  /** Reading a quoted body back, as Python's parser does with the escapes
      `repr` writes. */
  function Unescape(b: string): string
    decreases |b|
  {
    if b == [] then []
    else if b[0] == '\\' && |b| >= 2 then
      if b[1] == 't' then ['\t'] + Unescape(b[2..])
      else if b[1] == 'n' then ['\n'] + Unescape(b[2..])
      else if b[1] == 'r' then ['\r'] + Unescape(b[2..])
      else if b[1] == 'x' && |b| >= 4 then [(HexValue(b[2]) * 16 + HexValue(b[3])) as char] + Unescape(b[4..])
      else [b[1]] + Unescape(b[2..])
    else [b[0]] + Unescape(b[1..])
  }

  /** A string holding `'` (and otherwise printable ASCII without `"` or
      backslashes) prints in double quotes inside a list inside a list, as
      `str([["it's"]])` gives `[["it's"]]`. */
  lemma NestedQuote(s: string)
    requires '\'' in s
    requires forall i :: 0 <= i < |s| ==> s[i] != '"' && s[i] != '\\' && 32 <= s[i] as int < 127
    ensures Text(List([List([Str(s)])])) == "[[\"" + s + "\"]]"
  {
    var inner := List([Str(s)]);
    QuoteDouble(s);
    SingletonText(Str(s));
    SingletonText(inner);
    assert Repr(inner) == Text(inner);
  }

  lemma QuoteDouble(s: string)
    requires '\'' in s
    requires forall i :: 0 <= i < |s| ==> s[i] != '"' && s[i] != '\\' && 32 <= s[i] as int < 127
    ensures Quote(s) == "\"" + s + "\""
  {
    assert '"' !in s;
    EscapedPlain(s, '"');
  }

  lemma SingletonText(x: Tree)
    ensures Text(List([x])) == "[" + Repr(x) + "]"
  {
    assert ReprItems(List([x]), 1) == Repr(x);
  }

  /** A string of printable ASCII without backslashes or the quote in use
      is its own `repr` body. */
  lemma {:induction false} EscapedPlain(s: string, q: char)
    requires forall i :: 0 <= i < |s| ==> s[i] != q && s[i] != '\\' && 32 <= s[i] as int < 127
    ensures Escaped(s, q) == s
  {
    if s != [] {
      EscapedPlain(s[1..], q);
      assert [s[0]] + s[1..] == s;
    }
  }

  /** Reading back an escaped body gives the string. */
  lemma {:induction false} UnescapeEscaped(s: string, q: char)
    requires q == '\'' || q == '"'
    ensures Unescape(Escaped(s, q)) == s
  {
    if s != [] {
      UnescapeEscaped(s[1..], q);
      UnescapeChar(s[0], q, Escaped(s[1..], q));
      assert [s[0]] + s[1..] == s;
    }
  }

  lemma UnescapeChar(c: char, q: char, rest: string)
    requires q == '\'' || q == '"'
    ensures Unescape(EscapeChar(c, q) + rest) == [c] + Unescape(rest)
  {
    var b := EscapeChar(c, q) + rest;
    if c == q || c == '\\' || c == '\t' || c == '\n' || c == '\r' {
      assert b[2..] == rest;
    } else if c as int < 32 || c as int == 127 {
      var n := c as int;
      assert b[4..] == rest;
      assert HexValue(b[2]) * 16 + HexValue(b[3]) == n;
    } else {
      assert b[1..] == rest;
    }
  }

  function ReprItems(t: Tree, k: nat): string
    requires t.List? && k <= |t.items|
    decreases t, 0, k
  {
    if k == 0 then ""
    else if k == 1 then Repr(t.items[0])
    else ReprItems(t, k - 1) + ", " + Repr(t.items[k - 1])
  }

  function ReprEntries(t: Tree, k: nat): string
    requires t.Map? && k <= |t.entries|
    decreases t, 0, k
  {
    if k == 0 then ""
    else
      var e := Quote(t.entries[k - 1].0) + ": " + Repr(t.entries[k - 1].1);
      if k == 1 then e else ReprEntries(t, k - 1) + ", " + e
  }
}
