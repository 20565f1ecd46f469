/** `StrExpand` (pysp/basic.py): placeholder substitution in strings.
    `environ_vars` replaces `$name` and `${...}` by environment values,
    `config_vars` replaces `@path` and `@{...}` by configuration values, and
    `convert` repeats both until nothing changes. The two regular
    expressions are modelled by one left-to-right scanner; a word character
    is an ASCII letter, digit or underscore. The environment is a parameter. */
module Expand {
  import opened Trees
  import opened Paths
  import opened Access

  predicate IsWordChar(c: char)
  {
    ('a' <= c <= 'z') || ('A' <= c <= 'Z') || ('0' <= c <= '9') || c == '_'
  }

  /** The characters a bare name may hold: `\w` for `$`, `[\w.]` for `@`. */
  predicate InName(c: char, dotted: bool)
  {
    IsWordChar(c) || (dotted && c == '.')
  }

  /** End of the longest run of name characters starting at `i`. */
  function RunEnd(s: string, i: nat, dotted: bool): (j: nat)
    requires i <= |s|
    ensures i <= j <= |s|
    ensures forall k :: i <= k < j ==> InName(s[k], dotted)
    ensures j == |s| || !InName(s[j], dotted)
    decreases |s| - i
  {
    if i < |s| && InName(s[i], dotted) then RunEnd(s, i + 1, dotted) else i
  }

  /** A piece of the scanned string: a character kept as it is, or a
      placeholder with its full text and the name it refers to. */
  datatype Token = Lit(c: char) | Ref(whole: string, name: string)

  /** The placeholder starting with the sigil at `i`, if the pattern matches
      there: its end and its name. A bare name is the longest run; a braced
      one runs to the first `}`, and `{}` names itself, since its empty
      inner group is falsy. */
  function MatchAt(s: string, i: nat, dotted: bool): (r: Option<(nat, string)>)
    requires i < |s|
    ensures r.Some? ==> i + 2 <= r.value.0 <= |s|
  {
    if i + 1 < |s| && InName(s[i + 1], dotted) then
      var j := RunEnd(s, i + 1, dotted);
      Some((j, s[i + 1..j]))
    else if i + 1 < |s| && s[i + 1] == '{' then BracedAt(s, i)
    else None
  }

  /** The braced placeholder whose `{` is at `i + 1`: it runs to the first `}`. */
  function BracedAt(s: string, i: nat): (r: Option<(nat, string)>)
    requires i + 1 < |s|
    ensures r.Some? ==> i + 2 <= r.value.0 <= |s|
  {
    var c := IndexOf(s[i + 2..], '}');
    if c < 0 then None
    else
      var inner := s[i + 2..i + 2 + c];
      Some((i + 3 + c, if inner == "" then "{}" else inner))
  }

  /** `re.sub`'s left-to-right scan from position `i`: a sigil that starts a
      match (and, with `skipEscaped`, does not follow a backslash) opens a
      placeholder; any other character is kept. */
  function Scan(s: string, i: nat, sigil: char, dotted: bool, skipEscaped: bool): seq<Token>
    requires i <= |s|
    decreases |s| - i
  {
    if i == |s| then []
    else if s[i] == sigil && !(skipEscaped && i > 0 && s[i - 1] == '\\') && MatchAt(s, i, dotted).Some? then
      var m := MatchAt(s, i, dotted).value;
      [Ref(s[i..m.0], m.1)] + Scan(s, m.0, sigil, dotted, skipEscaped)
    else [Lit(s[i])] + Scan(s, i + 1, sigil, dotted, skipEscaped)
  }

  /** The text the tokens came from. */
  function Source(ts: seq<Token>): string
  {
    if ts == [] then ""
    else (if ts[0].Lit? then [ts[0].c] else ts[0].whole) + Source(ts[1..])
  }

  lemma SourceConcat(a: seq<Token>, b: seq<Token>)
    ensures Source(a + b) == Source(a) + Source(b)
  {
    if a != [] {
      assert (a + b)[1..] == a[1..] + b;
    } else {
      assert a + b == b;
    }
  }

  /** Scanning loses nothing: the tokens spell the scanned text. */
  lemma {:induction false} ScanSpells(s: string, i: nat, sigil: char, dotted: bool, skipEscaped: bool)
    requires i <= |s|
    ensures Source(Scan(s, i, sigil, dotted, skipEscaped)) == s[i..]
    decreases |s| - i
  {
    if i < |s| {
      if s[i] == sigil && !(skipEscaped && i > 0 && s[i - 1] == '\\') && MatchAt(s, i, dotted).Some? {
        var m := MatchAt(s, i, dotted).value;
        ScanRefStep(s, i, sigil, dotted, skipEscaped);
        ScanSpells(s, m.0, sigil, dotted, skipEscaped);
        SpellStep(Ref(s[i..m.0], m.1), Scan(s, m.0, sigil, dotted, skipEscaped), s, i, m.0);
      } else {
        ScanLitStep(s, i, sigil, dotted, skipEscaped);
        ScanSpells(s, i + 1, sigil, dotted, skipEscaped);
        SpellStep(Lit(s[i]), Scan(s, i + 1, sigil, dotted, skipEscaped), s, i, i + 1);
      }
    }
  }

  /** A character that opens no placeholder is kept. */
  lemma ScanLitStep(s: string, i: nat, sigil: char, dotted: bool, skipEscaped: bool)
    requires i < |s|
    requires !(s[i] == sigil && !(skipEscaped && i > 0 && s[i - 1] == '\\') && MatchAt(s, i, dotted).Some?)
    ensures Scan(s, i, sigil, dotted, skipEscaped) == [Lit(s[i])] + Scan(s, i + 1, sigil, dotted, skipEscaped)
  {
  }

  /** One token spelling `s[i..j]` ahead of tokens spelling `s[j..]` spells `s[i..]`. */
  lemma SpellStep(head: Token, rest: seq<Token>, s: string, i: nat, j: nat)
    requires i < j <= |s|
    requires (if head.Lit? then [head.c] else head.whole) == s[i..j] && Source(rest) == s[j..]
    ensures Source([head] + rest) == s[i..]
  {
    assert ([head] + rest)[0] == head && ([head] + rest)[1..] == rest;
    assert s[i..] == s[i..j] + s[j..];
  }

  /** The shape of a placeholder: the sigil, then a bare name, or a braced
      one whose name is the inside of the braces, `{}` standing for itself. */
  predicate WellFormedRef(t: Token, sigil: char, dotted: bool)
  {
    t.Ref? && |t.whole| >= 2 && t.whole[0] == sigil &&
    ((t.name == t.whole[1..] && forall c :: c in t.name ==> InName(c, dotted))
     || (t.whole[1] == '{' && t.whole[|t.whole| - 1] == '}' && '}' !in t.whole[2..|t.whole| - 1]
         && t.name == (if |t.whole| == 3 then "{}" else t.whole[2..|t.whole| - 1])))
  }

  lemma MatchShape(s: string, i: nat, sigil: char, dotted: bool)
    requires i < |s| && s[i] == sigil && MatchAt(s, i, dotted).Some?
    ensures var m := MatchAt(s, i, dotted).value;
      WellFormedRef(Ref(s[i..m.0], m.1), sigil, dotted)
  {
    if i + 1 < |s| && InName(s[i + 1], dotted) {
      MatchBare(s, i, sigil, dotted);
    } else {
      MatchBraced(s, i, sigil, dotted);
    }
  }

  lemma MatchBare(s: string, i: nat, sigil: char, dotted: bool)
    requires i + 1 < |s| && s[i] == sigil && InName(s[i + 1], dotted)
    ensures MatchAt(s, i, dotted).Some?
    ensures var m := MatchAt(s, i, dotted).value;
      WellFormedRef(Ref(s[i..m.0], m.1), sigil, dotted)
  {
    var j := RunEnd(s, i + 1, dotted);
    assert MatchAt(s, i, dotted) == Some((j, s[i + 1..j]));
    var w := s[i..j];
    assert w[1..] == s[i + 1..j];
    forall c | c in s[i + 1..j] ensures InName(c, dotted) {
      var k :| 0 <= k < j - i - 1 && s[i + 1..j][k] == c;
      assert s[i + 1 + k] == c;
    }
  }

  lemma MatchBraced(s: string, i: nat, sigil: char, dotted: bool)
    requires i < |s| && s[i] == sigil && MatchAt(s, i, dotted).Some?
    requires !(i + 1 < |s| && InName(s[i + 1], dotted))
    ensures var m := MatchAt(s, i, dotted).value;
      WellFormedRef(Ref(s[i..m.0], m.1), sigil, dotted)
  {
    var rest := s[i + 2..];
    var c := IndexOf(rest, '}');
    var inner := s[i + 2..i + 2 + c];
    assert MatchAt(s, i, dotted) == Some((i + 3 + c, if inner == "" then "{}" else inner));
    BracedPieces(s, i, c);
  }

  /** The pieces of a braced placeholder `s[i..i + 3 + c]` whose closing
      brace is the first `}` after the opening one. */
  lemma BracedPieces(s: string, i: nat, c: int)
    requires i + 1 < |s| && s[i + 1] == '{'
    requires c == IndexOf(s[i + 2..], '}') && c >= 0
    ensures var w := s[i..i + 3 + c];
      && |w| == 3 + c && w[0] == s[i] && w[1] == '{' && w[|w| - 1] == '}'
      && w[2..|w| - 1] == s[i + 2..i + 2 + c] && '}' !in w[2..|w| - 1]
  {
    var rest := s[i + 2..];
    var w := s[i..i + 3 + c];
    assert rest[c] == '}' && '}' !in rest[..c];
    assert w[2 + c] == s[i + 2 + c] == rest[c];
    assert rest[..c] == s[i + 2..i + 2 + c];
    var a, b := w[2..|w| - 1], s[i + 2..i + 2 + c];
    forall k | 0 <= k < c ensures a[k] == b[k] {
      assert a[k] == w[2 + k] == s[i + 2 + k];
    }
    assert a == b;
  }

  /** Every placeholder the scan finds is well formed. */
  lemma {:induction false} ScanRefs(s: string, i: nat, sigil: char, dotted: bool, skipEscaped: bool, k: nat)
    requires i <= |s| && k < |Scan(s, i, sigil, dotted, skipEscaped)|
    requires Scan(s, i, sigil, dotted, skipEscaped)[k].Ref?
    ensures WellFormedRef(Scan(s, i, sigil, dotted, skipEscaped)[k], sigil, dotted)
    decreases |s| - i
  {
    var ts := Scan(s, i, sigil, dotted, skipEscaped);
    var matched := s[i] == sigil && !(skipEscaped && i > 0 && s[i - 1] == '\\') && MatchAt(s, i, dotted).Some?;
    var j := if matched then MatchAt(s, i, dotted).value.0 else i + 1;
    assert ts == [ts[0]] + Scan(s, j, sigil, dotted, skipEscaped);
    if k > 0 {
      assert ts[k] == Scan(s, j, sigil, dotted, skipEscaped)[k - 1];
      ScanRefs(s, j, sigil, dotted, skipEscaped, k - 1);
    } else {
      assert matched;
      MatchShape(s, i, sigil, dotted);
    }
  }

  /** A string without the sigil has no placeholder. */
  lemma {:induction false} ScanNoSigil(s: string, i: nat, sigil: char, dotted: bool, skipEscaped: bool)
    requires i <= |s| && sigil !in s[i..]
    ensures forall t :: t in Scan(s, i, sigil, dotted, skipEscaped) ==> t.Lit?
    decreases |s| - i
  {
    if i < |s| {
      assert s[i] == s[i..][0];
      assert s[i + 1..] == s[i..][1..];
      ScanNoSigil(s, i + 1, sigil, dotted, skipEscaped);
    }
  }

  /** The value `os.environ.get(name, defvalue)` puts in place of a placeholder. */
  function EnvText(t: Token, env: map<string, string>, default: Option<string>): string
  {
    if t.Lit? then [t.c]
    else if t.name in env then env[t.name]
    else if default.Some? then default.value
    else t.whole
  }

  function EnvRender(ts: seq<Token>, env: map<string, string>, default: Option<string>): string
  {
    if ts == [] then "" else EnvText(ts[0], env, default) + EnvRender(ts[1..], env, default)
  }

  /** `environ_vars(string, default, skip_escaped)` over the environment `env`. */
  function EnvironVars(s: string, env: map<string, string>, default: Option<string>, skipEscaped: bool): string
  {
    EnvRender(Scan(s, 0, '$', false, skipEscaped), env, default)
  }

  /** Placeholders that resolve to nothing and have no default stay as written. */
  lemma {:induction false} EnvRenderKeeps(ts: seq<Token>, env: map<string, string>)
    requires forall t :: t in ts && t.Ref? ==> t.name !in env
    ensures EnvRender(ts, env, None) == Source(ts)
  {
    if ts != [] {
      EnvRenderKeeps(ts[1..], env);
    }
  }

  /** Without a `$`, or without any known variable and default, the string
      comes back unchanged. */
  lemma EnvironVarsUnchanged(s: string, env: map<string, string>, skipEscaped: bool)
    requires '$' !in s || env == map[]
    ensures EnvironVars(s, env, None, skipEscaped) == s
  {
    var ts := Scan(s, 0, '$', false, skipEscaped);
    if '$' !in s {
      assert s[0..] == s;
      ScanNoSigil(s, 0, '$', false, skipEscaped);
    }
    EnvRenderKeeps(ts, env);
    ScanSpells(s, 0, '$', false, skipEscaped);
    assert s[0..] == s;
  }

  /** `config_vars`'s rendering of a configuration value: a list becomes its
      items joined by commas, a dict is refused, anything else is `str`. */
  function ValueText(v: Tree): (r: Result<string>)
    ensures r.Fail? <==> v.Map?
  {
    if v.List? then Ok(Join(seq(|v.items|, k requires 0 <= k < |v.items| => Text(v.items[k])), ','))
    else if v.Map? then Fail(Unsupported)
    else Ok(Text(v))
  }

  /** The text for one token: a placeholder is looked up with `get_value`,
      its own text being the default. */
  function ConfigText(t: Token, config: Tree): Result<string>
  {
    if t.Lit? then Ok([t.c])
    else
      var v :- Lookup(config, Split(t.name, '.'), Str(t.whole));
      ValueText(v)
  }

  function ConfigRender(ts: seq<Token>, config: Tree): Result<string>
  {
    if ts == [] then Ok("")
    else
      var head :- ConfigText(ts[0], config);
      var rest :- ConfigRender(ts[1..], config);
      Ok(head + rest)
  }

  /** `config_vars(config, string)`; `None` is no configuration at all. */
  function ConfigVars(config: Option<Tree>, s: string): (r: Result<string>)
    ensures config.None? ==> r == Ok(s)
  {
    if config.None? then Ok(s)
    else ConfigRender(Scan(s, 0, '@', true, false), config.value)
  }

  /** A string without `@` is returned unchanged. */
  lemma ConfigVarsNoSigil(config: Option<Tree>, s: string)
    requires '@' !in s
    ensures ConfigVars(config, s) == Ok(s)
  {
    if config.Some? {
      assert s[0..] == s;
      ScanNoSigil(s, 0, '@', true, false);
      ScanSpells(s, 0, '@', true, false);
      ConfigRenderLits(Scan(s, 0, '@', true, false), config.value);
    }
  }

  lemma {:induction false} ConfigRenderLits(ts: seq<Token>, config: Tree)
    requires forall t :: t in ts ==> t.Lit?
    ensures ConfigRender(ts, config) == Ok(Source(ts))
  {
    if ts != [] {
      ConfigRenderLits(ts[1..], config);
    }
  }

  /** One pass of `convert`: the environment, then the configuration. */
  function Pass(s: string, config: Option<Tree>, env: map<string, string>): Result<string>
  {
    ConfigVars(config, EnvironVars(s, env, None, false))
  }

  /** `Pass` with its configuration and environment fixed. */
  function PassOf(config: Option<Tree>, env: map<string, string>): (step: string -> Result<string>)
    ensures forall x :: step(x) == Pass(x, config, env)
  {
    x => Pass(x, config, env)
  }

  const MAX_LOOP_COUNT := 30

  /** The loop of `convert`, repeating the pass `step`, after `lpcnt` passes
      already changed the string. */
  function Run(step: string -> Result<string>, s: string, lpcnt: nat): Result<string>
    requires lpcnt <= MAX_LOOP_COUNT
    decreases MAX_LOOP_COUNT - lpcnt
  {
    var next :- step(s);
    if next == s then Ok(s)
    else if lpcnt + 1 > MAX_LOOP_COUNT then Fail(LoopLimit)
    else Run(step, next, lpcnt + 1)
  }

  /** `convert(string, config)`. */
  method Convert(s: string, config: Option<Tree>, env: map<string, string>) returns (r: Result<string>)
    ensures r == Run(PassOf(config, env), s, 0)
  {
    r := ConvertLoop(PassOf(config, env), s);
  }

  /** The loop of `convert`, for any pass `step`: repeat it until the string
      stops changing, an error occurs, or the loop count passes the limit. */
  method ConvertLoop(step: string -> Result<string>, s: string) returns (r: Result<string>)
    ensures r == Run(step, s, 0)
  {
    var lpcnt := 0;
    var str := s;
    while true
      invariant 0 <= lpcnt <= MAX_LOOP_COUNT
      invariant Run(step, s, 0) == Run(step, str, lpcnt)
      decreases MAX_LOOP_COUNT - lpcnt
    {
      var p := str;
      var next := step(p);
      if next.Fail? {
        return Fail(next.error);
      }
      str := next.value;
      if p == str {
        return Ok(str);
      }
      lpcnt := lpcnt + 1;
      if lpcnt > MAX_LOOP_COUNT {
        return Fail(LoopLimit);
      }
    }
  }

  /** The string after `k` passes, if they all succeed. */
  function Iter(step: string -> Result<string>, s: string, k: nat): Result<string>
  {
    if k == 0 then Ok(s)
    else
      var prev :- Iter(step, s, k - 1);
      step(prev)
  }

  /** Pass `k` (counting from 0) succeeds and changes the string. */
  predicate Changes(step: string -> Result<string>, s: string, k: nat)
  {
    Iter(step, s, k).Ok? && Iter(step, s, k + 1).Ok? &&
    Iter(step, s, k + 1).value != Iter(step, s, k).value
  }

  /** The result of `convert` is a fixed point reached within 31 passes:
      one more pass leaves it unchanged. */
  lemma ConvertFixedPoint(s: string, config: Option<Tree>, env: map<string, string>)
    requires Run(PassOf(config, env), s, 0).Ok?
    ensures var r := Run(PassOf(config, env), s, 0).value;
      Pass(r, config, env) == Ok(r) &&
      exists k :: 0 <= k <= MAX_LOOP_COUNT && Iter(PassOf(config, env), s, k) == Ok(r)
  {
    RunFixedPoint(PassOf(config, env), s, 0);
  }

  lemma {:induction false} RunFixedPoint(step: string -> Result<string>, s: string, c: nat)
    requires c <= MAX_LOOP_COUNT && Iter(step, s, c).Ok?
    requires Run(step, Iter(step, s, c).value, c).Ok?
    ensures var r := Run(step, Iter(step, s, c).value, c).value;
      step(r) == Ok(r) &&
      exists k :: c <= k <= MAX_LOOP_COUNT && Iter(step, s, k) == Ok(r)
    decreases MAX_LOOP_COUNT - c
  {
    var x := Iter(step, s, c).value;
    var next := step(x).value;
    if next != x {
      assert Iter(step, s, c + 1) == Ok(next);
      RunFixedPoint(step, s, c + 1);
    }
  }

  /** `convert` gives up exactly when each of the first 31 passes succeeds
      and changes the string. */
  lemma ConvertLoopLimit(s: string, config: Option<Tree>, env: map<string, string>)
    ensures Run(PassOf(config, env), s, 0) == Fail(LoopLimit) <==>
      forall k :: 0 <= k <= MAX_LOOP_COUNT ==> Changes(PassOf(config, env), s, k)
  {
    var step := PassOf(config, env);
    forall x ensures step(x) != Fail(LoopLimit) {
      PassNeverLoopLimit(x, config, env);
    }
    RunLoopLimit(step, s, 0);
  }

  lemma PassNeverLoopLimit(s: string, config: Option<Tree>, env: map<string, string>)
    ensures Pass(s, config, env) != Fail(LoopLimit)
  {
    var e := EnvironVars(s, env, None, false);
    if config.Some? {
      ConfigRenderError(Scan(e, 0, '@', true, false), config.value);
    }
  }

  lemma {:induction false} ConfigRenderError(ts: seq<Token>, config: Tree)
    ensures ConfigRender(ts, config) != Fail(LoopLimit)
  {
    if ts != [] {
      if ts[0].Ref? {
        LookupError(config, Split(ts[0].name, '.'), Str(ts[0].whole));
      }
      ConfigRenderError(ts[1..], config);
    }
  }

  lemma {:induction false} LookupError(t: Tree, keys: seq<string>, def: Tree)
    ensures Lookup(t, keys, def).Fail? ==> Lookup(t, keys, def).error == TypeMismatch
    decreases |keys|
  {
    if keys != [] && t.Map? && HasKey(t.entries, keys[0]) {
      LookupError(Get(t.entries, keys[0]), keys[1..], def);
    }
  }

  lemma {:induction false} RunLoopLimit(step: string -> Result<string>, s: string, c: nat)
    requires forall x :: step(x) != Fail(LoopLimit)
    requires c <= MAX_LOOP_COUNT && Iter(step, s, c).Ok?
    ensures Run(step, Iter(step, s, c).value, c) == Fail(LoopLimit) <==>
      forall k :: c <= k <= MAX_LOOP_COUNT ==> Changes(step, s, k)
    decreases MAX_LOOP_COUNT - c
  {
    var x := Iter(step, s, c).value;
    var p := step(x);
    assert Iter(step, s, c + 1) == p;
    if p.Ok? && p.value != x {
      assert Changes(step, s, c);
      if c < MAX_LOOP_COUNT {
        assert Run(step, x, c) == Run(step, p.value, c + 1);
        RunLoopLimit(step, s, c + 1);
      }
    } else {
      assert !Changes(step, s, c);
    }
  }

  /** The tokens of text kept as it is. */
  function Lits(x: string): (ts: seq<Token>)
    ensures |ts| == |x|
  {
    if x == [] then [] else [Lit(x[0])] + Lits(x[1..])
  }

  /** A stretch without the sigil scans into plain characters. */
  lemma {:induction false} ScanLits(s: string, i: nat, j: nat, sigil: char, dotted: bool, skipEscaped: bool)
    requires i <= j <= |s| && sigil !in s[i..j]
    ensures Scan(s, i, sigil, dotted, skipEscaped) == Lits(s[i..j]) + Scan(s, j, sigil, dotted, skipEscaped)
    decreases j - i
  {
    if i < j {
      assert s[i] == s[i..j][0];
      assert s[i + 1..j] == s[i..j][1..];
      ScanLits(s, i + 1, j, sigil, dotted, skipEscaped);
    } else {
      assert s[i..j] == [];
    }
  }

  lemma {:induction false} RunEndIs(s: string, i: nat, j: nat, dotted: bool)
    requires i <= j <= |s| && (forall k :: i <= k < j ==> InName(s[k], dotted))
    requires j == |s| || !InName(s[j], dotted)
    ensures RunEnd(s, i, dotted) == j
    decreases j - i
  {
    if i < j {
      RunEndIs(s, i + 1, j, dotted);
    }
  }

  lemma {:induction false} EnvRenderConcat(a: seq<Token>, b: seq<Token>, env: map<string, string>, default: Option<string>)
    ensures EnvRender(a + b, env, default) == EnvRender(a, env, default) + EnvRender(b, env, default)
  {
    if a == [] {
      assert a + b == b;
    } else {
      assert (a + b)[0] == a[0] && (a + b)[1..] == a[1..] + b;
      EnvRenderConcat(a[1..], b, env, default);
    }
  }

  lemma {:induction false} EnvRenderLits(x: string, env: map<string, string>, default: Option<string>)
    ensures EnvRender(Lits(x), env, default) == x
  {
    if x != [] {
      EnvRenderLits(x[1..], env, default);
      assert x == [x[0]] + x[1..];
    }
  }

  /** Scanning `pre`, one placeholder spanning `[|pre|, j)`, then `post`. */
  lemma ScanOne(s: string, pre: string, post: string, j: nat, sigil: char, dotted: bool, skipEscaped: bool)
    requires |pre| < |s| && s[..|pre|] == pre && s[|pre|] == sigil && sigil !in pre
    requires !(skipEscaped && |pre| > 0 && pre[|pre| - 1] == '\\')
    requires MatchAt(s, |pre|, dotted).Some? && MatchAt(s, |pre|, dotted).value.0 == j
    requires j <= |s| && s[j..] == post && sigil !in post
    ensures Scan(s, 0, sigil, dotted, skipEscaped) ==
      Lits(pre) + [Ref(s[|pre|..j], MatchAt(s, |pre|, dotted).value.1)] + Lits(post)
  {
    var r := [Ref(s[|pre|..j], MatchAt(s, |pre|, dotted).value.1)];
    assert s[0..|pre|] == pre;
    ScanLits(s, 0, |pre|, sigil, dotted, skipEscaped);
    ScanRefStep(s, |pre|, sigil, dotted, skipEscaped);
    ScanRest(s, j, sigil, dotted, skipEscaped);
    Assoc3(Lits(pre), r, Lits(post));
  }

  /** A sigil that opens a match is scanned as one placeholder. */
  lemma ScanRefStep(s: string, i: nat, sigil: char, dotted: bool, skipEscaped: bool)
    requires i < |s| && s[i] == sigil && !(skipEscaped && i > 0 && s[i - 1] == '\\')
    requires MatchAt(s, i, dotted).Some?
    ensures var m := MatchAt(s, i, dotted).value;
      Scan(s, i, sigil, dotted, skipEscaped) == [Ref(s[i..m.0], m.1)] + Scan(s, m.0, sigil, dotted, skipEscaped)
  {
  }

  /** A tail without the sigil scans into its plain characters. */
  lemma ScanRest(s: string, j: nat, sigil: char, dotted: bool, skipEscaped: bool)
    requires j <= |s| && sigil !in s[j..]
    ensures Scan(s, j, sigil, dotted, skipEscaped) == Lits(s[j..])
  {
    assert s[j..|s|] == s[j..];
    ScanLits(s, j, |s|, sigil, dotted, skipEscaped);
    assert Lits(s[j..]) + [] == Lits(s[j..]);
  }

  lemma Assoc3<T>(a: seq<T>, b: seq<T>, c: seq<T>)
    ensures a + (b + c) == a + b + c
  {
  }

  lemma RenderOne(pre: string, r: Token, post: string, env: map<string, string>, default: Option<string>)
    ensures EnvRender(Lits(pre) + [r] + Lits(post), env, default) == pre + EnvText(r, env, default) + post
  {
    EnvRenderConcat(Lits(pre) + [r], Lits(post), env, default);
    EnvRenderConcat(Lits(pre), [r], env, default);
    EnvRenderLits(pre, env, default);
    EnvRenderLits(post, env, default);
  }

  /** Where a bare name follows the sigil, the match is the whole run. */
  lemma BareMatch(pre: string, sigil: char, name: string, post: string, dotted: bool)
    requires |name| > 0 && (forall c :: c in name ==> InName(c, dotted))
    requires post == [] || !InName(post[0], dotted)
    ensures var s := pre + [sigil] + name + post;
      var j := |pre| + 1 + |name|;
      && s[..|pre|] == pre && s[|pre|] == sigil && s[j..] == post && s[|pre|..j] == [sigil] + name
      && MatchAt(s, |pre|, dotted) == Some((j, name))
  {
    var s := pre + [sigil] + name + post;
    var i := |pre|;
    var j := i + 1 + |name|;
    assert s[i + 1..j] == name;
    forall k | i + 1 <= k < j ensures InName(s[k], dotted) {
      assert s[k] == name[k - i - 1];
    }
    assert j < |s| ==> s[j] == post[0];
    RunEndIs(s, i + 1, j, dotted);
    assert s[i..j] == [sigil] + name;
    assert s[..i] == pre && s[j..] == post;
  }

  /** Where a brace follows the sigil, the match runs to the first `}`. */
  /** The opening of a braced placeholder, written as one literal. */
  lemma Opening(sigil: char, inner: string)
    ensures [sigil] + "{" + inner + "}" == [sigil, '{'] + inner + "}"
  {
    assert [sigil] + "{" == [sigil, '{'];
  }

  lemma BracedMatch(s: string, pre: string, sigil: char, inner: string, post: string, dotted: bool, j: nat, name: string)
    requires s == pre + [sigil] + "{" + inner + "}" + post && '}' !in inner
    requires j == |pre| + 3 + |inner| && name == if inner == "" then "{}" else inner
    ensures j <= |s| && s[..|pre|] == pre && s[|pre|] == sigil && s[j..] == post && s[|pre|..j] == [sigil] + "{" + inner + "}"
    ensures MatchAt(s, |pre|, dotted) == Some((j, name))
  {
    BracedSlices(s, pre, sigil, inner, post);
    BracedMatchAt(s, pre, sigil, inner, post, dotted);
  }

  lemma BracedSlices(s: string, pre: string, sigil: char, inner: string, post: string)
    requires s == pre + [sigil] + "{" + inner + "}" + post
    ensures var i, j := |pre|, |pre| + 3 + |inner|;
      && s[..i] == pre && s[i] == sigil && s[i + 1] == '{' && s[j..] == post
      && s[i..j] == [sigil] + "{" + inner + "}"
      && s[i + 2..] == inner + "}" + post
  {
    var m := [sigil] + "{" + inner + "}";
    assert s == pre + m + post;
    assert s[..|pre|] == pre;
    assert s[|pre|..|pre| + |m|] == m;
    assert s[|pre| + |m|..] == post;
    assert s[|pre| + 2..] == inner + "}" + post;
  }

  lemma BracedMatchAt(s: string, pre: string, sigil: char, inner: string, post: string, dotted: bool)
    requires |s| == |pre| + 3 + |inner| + |post| && s[|pre| + 1] == '{'
    requires s[|pre| + 2..] == inner + "}" + post && '}' !in inner
    ensures MatchAt(s, |pre|, dotted) == Some((|pre| + 3 + |inner|, if inner == "" then "{}" else inner))
  {
    assert !InName('{', dotted);
    BracedAtIs(s, |pre|, inner, post);
  }

  lemma BracedAtIs(s: string, i: nat, inner: string, post: string)
    requires i + 1 < |s| && s[i + 2..] == inner + "}" + post && '}' !in inner
    ensures BracedAt(s, i) == Some((i + 3 + |inner|, if inner == "" then "{}" else inner))
  {
    var rest := s[i + 2..];
    IndexOfAfterFree(inner, '}', post);
    assert IndexOf(rest, '}') == |inner|;
    assert s[i + 2..i + 2 + |inner|] == rest[..|inner|] == inner;
  }



  /** `$name`, with `name` the longest run of word characters, is replaced
      by the variable's value, by the default, or else left as written. */
  lemma EnvironBare(pre: string, name: string, post: string, env: map<string, string>, default: Option<string>, skipEscaped: bool)
    requires '$' !in pre && '$' !in post
    requires |name| > 0 && (forall c :: c in name ==> IsWordChar(c))
    requires post == [] || !IsWordChar(post[0])
    requires !(skipEscaped && |pre| > 0 && pre[|pre| - 1] == '\\')
    ensures EnvironVars(pre + "$" + name + post, env, default, skipEscaped) ==
      pre + (if name in env then env[name] else if default.Some? then default.value else "$" + name) + post
  {
    BareMatch(pre, '$', name, post, false);
    var s := pre + "$" + name + post;
    ScanOne(s, pre, post, |pre| + 1 + |name|, '$', false, skipEscaped);
    RenderOne(pre, Ref("$" + name, name), post, env, default);
  }

  /** A string holding one `$` placeholder renders as `pre`, the
      placeholder's replacement, then `post`. */
  lemma EnvironOne(s: string, pre: string, post: string, j: nat, env: map<string, string>, default: Option<string>, skipEscaped: bool)
    requires |pre| < |s| && s[..|pre|] == pre && s[|pre|] == '$' && '$' !in pre
    requires !(skipEscaped && |pre| > 0 && pre[|pre| - 1] == '\\')
    requires MatchAt(s, |pre|, false).Some? && MatchAt(s, |pre|, false).value.0 == j
    requires j <= |s| && s[j..] == post && '$' !in post
    ensures EnvironVars(s, env, default, skipEscaped) ==
      pre + EnvText(Ref(s[|pre|..j], MatchAt(s, |pre|, false).value.1), env, default) + post
  {
    ScanOne(s, pre, post, j, '$', false, skipEscaped);
    RenderOne(pre, Ref(s[|pre|..j], MatchAt(s, |pre|, false).value.1), post, env, default);
  }

  /** `${inner}` is replaced by the variable `inner` (`{}` when empty). */
  lemma EnvironBraced(pre: string, inner: string, post: string, env: map<string, string>, default: Option<string>, skipEscaped: bool)
    requires '$' !in pre && '$' !in post && '}' !in inner
    requires !(skipEscaped && |pre| > 0 && pre[|pre| - 1] == '\\')
    ensures var name := if inner == "" then "{}" else inner;
      EnvironVars(pre + "${" + inner + "}" + post, env, default, skipEscaped) ==
      pre + (if name in env then env[name] else if default.Some? then default.value else "${" + inner + "}") + post
  {
    var s := pre + "${" + inner + "}" + post;
    var j := |pre| + 3 + |inner|;
    var whole := "${" + inner + "}";
    var name := if inner == "" then "{}" else inner;
    BracedMatch(s, pre, '$', inner, post, false, j, name);
    Opening('$', inner);
    assert s[|pre|..j] == whole;
    EnvironOne(s, pre, post, j, env, default, skipEscaped);
  }

  /** Rendering a token ahead of others: its text, then theirs; the first error wins. */
  lemma ConfigRenderCons(t: Token, rest: seq<Token>, config: Tree)
    ensures var h := ConfigText(t, config);
      var r := ConfigRender(rest, config);
      ConfigRender([t] + rest, config) == if h.Fail? then h else if r.Fail? then r else Ok(h.value + r.value)
  {
    var u := [t] + rest;
    assert u[0] == t && u[1..] == rest;
  }

  /** Plain characters in front of some tokens are copied ahead of their
      rendering; an error among the tokens is passed on unchanged. */
  lemma {:induction false} ConfigRenderPrefix(x: string, ts: seq<Token>, config: Tree)
    ensures var r := ConfigRender(ts, config);
      ConfigRender(Lits(x) + ts, config) == if r.Ok? then Ok(x + r.value) else r
  {
    var r := ConfigRender(ts, config);
    if x == [] {
      assert Lits(x) + ts == ts;
      assert r.Ok? ==> x + r.value == r.value;
    } else {
      assert Lits(x) + ts == [Lit(x[0])] + (Lits(x[1..]) + ts);
      ConfigRenderCons(Lit(x[0]), Lits(x[1..]) + ts, config);
      ConfigRenderPrefix(x[1..], ts, config);
      assert r.Ok? ==> [x[0]] + (x[1..] + r.value) == x + r.value;
    }
  }

  /** Plain characters render as themselves. */
  lemma ConfigRenderText(x: string, config: Tree)
    ensures ConfigRender(Lits(x), config) == Ok(x)
  {
    assert Lits(x) + [] == Lits(x);
    ConfigRenderPrefix(x, [], config);
    assert x + "" == x;
  }

  /** Plain text, one token, plain text: the token's rendering between the two. */
  lemma ConfigRenderOne(pre: string, t: Token, post: string, config: Tree)
    ensures var r := ConfigText(t, config);
      ConfigRender(Lits(pre) + [t] + Lits(post), config) == if r.Ok? then Ok(pre + r.value + post) else r
  {
    var r := ConfigText(t, config);
    Assoc3(Lits(pre), [t], Lits(post));
    ConfigRenderPrefix(pre, [t] + Lits(post), config);
    ConfigRenderCons(t, Lits(post), config);
    ConfigRenderText(post, config);
    if r.Ok? {
      Assoc3(pre, r.value, post);
    }
  }

  /** A string holding one `@` placeholder renders as `pre`, the
      placeholder's value, then `post`, or fails as the lookup fails. */
  lemma ConfigVarsOne(s: string, pre: string, post: string, j: nat, config: Tree)
    requires |pre| < |s| && s[..|pre|] == pre && s[|pre|] == '@' && '@' !in pre
    requires MatchAt(s, |pre|, true).Some? && MatchAt(s, |pre|, true).value.0 == j
    requires j <= |s| && s[j..] == post && '@' !in post
    ensures var r := ConfigText(Ref(s[|pre|..j], MatchAt(s, |pre|, true).value.1), config);
      ConfigVars(Some(config), s) == if r.Ok? then Ok(pre + r.value + post) else r
  {
    ScanOne(s, pre, post, j, '@', true, false);
    ConfigRenderOne(pre, Ref(s[|pre|..j], MatchAt(s, |pre|, true).value.1), post, config);
  }

  /** `@a.b.c`, with the dotted name the longest run of word characters and
      dots, is replaced by the rendering of `get_value("a.b.c")`, its own
      text being the default; a failed lookup or a dict value fails. */
  lemma ConfigVarsBare(config: Tree, pre: string, name: string, post: string)
    requires '@' !in pre && '@' !in post
    requires |name| > 0 && (forall c :: c in name ==> InName(c, true))
    requires post == [] || !InName(post[0], true)
    ensures var v := Lookup(config, Split(name, '.'), Str("@" + name));
      ConfigVars(Some(config), pre + "@" + name + post) ==
      if v.Fail? then Fail(v.error)
      else if v.value.Map? then Fail(Unsupported)
      else Ok(pre + ValueText(v.value).value + post)
  {
    var s := pre + "@" + name + post;
    BareMatch(pre, '@', name, post, true);
    ConfigVarsOne(s, pre, post, |pre| + 1 + |name|, config);
  }

  /** `@{inner}` is replaced by the value at `inner` (`{}` when empty). */
  lemma ConfigVarsBraced(config: Tree, pre: string, inner: string, post: string)
    requires '@' !in pre && '@' !in post && '}' !in inner
    ensures var name := if inner == "" then "{}" else inner;
      var v := Lookup(config, Split(name, '.'), Str("@{" + inner + "}"));
      ConfigVars(Some(config), pre + "@{" + inner + "}" + post) ==
      if v.Fail? then Fail(v.error)
      else if v.value.Map? then Fail(Unsupported)
      else Ok(pre + ValueText(v.value).value + post)
  {
    var s := pre + "@{" + inner + "}" + post;
    var j := |pre| + 3 + |inner|;
    var whole := "@{" + inner + "}";
    var name := if inner == "" then "{}" else inner;
    assert s == pre + ['@'] + "{" + inner + "}" + post;
    BracedMatch(s, pre, '@', inner, post, true, j, name);
    Opening('@', inner);
    assert s[|pre|..j] == whole;
    ConfigVarsAt(s, pre, post, j, whole, name, config);
  }

  lemma ConfigVarsAt(s: string, pre: string, post: string, j: nat, whole: string, name: string, config: Tree)
    requires |pre| < |s| && s[..|pre|] == pre && s[|pre|] == '@' && '@' !in pre
    requires MatchAt(s, |pre|, true) == Some((j, name)) && j <= |s| && s[|pre|..j] == whole
    requires s[j..] == post && '@' !in post
    ensures var v := Lookup(config, Split(name, '.'), Str(whole));
      ConfigVars(Some(config), s) ==
      if v.Fail? then Fail(v.error)
      else if v.value.Map? then Fail(Unsupported)
      else Ok(pre + ValueText(v.value).value + post)
  {
    ConfigVarsOne(s, pre, post, j, config);
  }

  /** With escapes skipped, a `$` right after a backslash is left alone. */
  lemma EnvironEscaped(pre: string, rest: string, env: map<string, string>, default: Option<string>)
    requires '$' !in pre && '$' !in rest && |pre| > 0 && pre[|pre| - 1] == '\\'
    ensures EnvironVars(pre + "$" + rest, env, default, true) == pre + "$" + rest
  {
    var s := pre + "$" + rest;
    var i := |pre|;
    assert s[0..i] == pre;
    ScanLits(s, 0, i, '$', false, true);
    assert s[i - 1] == '\\';
    assert Scan(s, i, '$', false, true) == [Lit('$')] + Scan(s, i + 1, '$', false, true);
    assert s[i + 1..|s|] == rest;
    ScanLits(s, i + 1, |s|, '$', false, true);
    assert Scan(s, |s|, '$', false, true) == [];
    assert Scan(s, 0, '$', false, true) == Lits(pre) + Lits("$") + Lits(rest);
    EnvRenderConcat(Lits(pre) + Lits("$"), Lits(rest), env, default);
    EnvRenderConcat(Lits(pre), Lits("$"), env, default);
    EnvRenderLits(pre, env, default);
    EnvRenderLits("$", env, default);
    EnvRenderLits(rest, env, default);
  }
}
