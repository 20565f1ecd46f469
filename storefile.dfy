/** The line filter of `store_file` (pysp/conf.py, pysp/yaml.py): the
    dumper quotes a string that starts with `!`, so every line mentioning
    `!include` loses its single quotes, which turns the text written in
    place of an included mapping back into an `!include` tag. Every line is
    terminated by the end-of-line string. The dumper itself is not part of
    this model: the filter starts from the dumped text, already stripped and
    split into lines. */
module StoreFile {
  import opened Paths
  import Include

  const EOL := "\n"

  /** `line.replace("'", "")`. */
  function RemoveQuotes(line: string): (r: string)
    ensures '\'' !in r
    ensures |r| <= |line|
    ensures forall c :: c != '\'' ==> (c in r <==> c in line)
  {
    if line == [] then []
    else (if line[0] == '\'' then [] else [line[0]]) + RemoveQuotes(line[1..])
  }

  /** A line without quotes is left as it is. */
  lemma {:induction false} RemoveQuotesNoQuote(line: string)
    requires '\'' !in line
    ensures RemoveQuotes(line) == line
  {
    if line != [] {
      RemoveQuotesNoQuote(line[1..]);
    }
  }

  /** Removing quotes twice is removing them once. */
  lemma RemoveQuotesIdempotent(line: string)
    ensures RemoveQuotes(RemoveQuotes(line)) == RemoveQuotes(line)
  {
    RemoveQuotesNoQuote(RemoveQuotes(line));
  }

  /** One output line, without its terminator. */
  function FilterLine(line: string): (r: string)
    ensures IsSubstring(Include.TAG, line) ==> r == RemoveQuotes(line) && '\'' !in r
    ensures !IsSubstring(Include.TAG, line) ==> r == line
  {
    if IsSubstring(Include.TAG, line) then RemoveQuotes(line) else line
  }

  /** The text `store_file` writes for the dumped lines. */
  function Render(lines: seq<string>): string
  {
    if lines == [] then [] else FilterLine(lines[0]) + EOL + Render(lines[1..])
  }

  /** The loop of `store_file`, writing one filtered line at a time. */
  method WriteLines(lines: seq<string>) returns (out: string)
    ensures out == Render(lines)
  {
    out := "";
    var i := 0;
    while i < |lines|
      invariant 0 <= i <= |lines|
      invariant out + Render(lines[i..]) == Render(lines)
    {
      assert lines[i..][1..] == lines[i + 1..];
      out := out + FilterLine(lines[i]) + EOL;
      i := i + 1;
    }
    assert lines[i..] == [];
  }

  /** Read back as lines, the written text is the filtered lines, each one
      terminated: splitting on the terminator gives them back, followed by
      the empty piece after the last terminator. */
  lemma {:induction false} RenderSplits(lines: seq<string>)
    requires forall i :: 0 <= i < |lines| ==> '\n' !in lines[i]
    ensures Split(Render(lines), '\n') == Filtered(lines) + [""]
  {
    if lines == [] {
      assert Split("", '\n') == [""];
    } else {
      var l := FilterLine(lines[0]);
      assert '\n' !in l by {
        if IsSubstring(Include.TAG, lines[0]) {
          assert forall c :: c != '\'' ==> (c in l <==> c in lines[0]);
        }
      }
      RenderSplits(lines[1..]);
      SplitCons(l, Render(lines[1..]));
    }
  }

  /** A separator-free piece followed by the separator splits off first. */
  lemma SplitCons(l: string, rest: string)
    requires '\n' !in l
    ensures Split(l + ['\n'] + rest, '\n') == [l] + Split(rest, '\n')
  {
    var s := l + ['\n'] + rest;
    IndexOfAfterFree(l, '\n', rest);
    assert s[..|l|] == l;
    assert s[|l| + 1..] == rest;
  }

  /** The lines as filtered. */
  function Filtered(lines: seq<string>): (r: seq<string>)
    ensures |r| == |lines|
    ensures forall i :: 0 <= i < |lines| ==> r[i] == FilterLine(lines[i])
  {
    if lines == [] then [] else [FilterLine(lines[0])] + Filtered(lines[1..])
  }

  /** `a in s` holds when `a` stands at some position of `s`. */
  lemma {:induction false} SubstringAt(a: string, s: string, j: nat)
    requires j <= |s| && |a| <= |s| - j && s[j..j + |a|] == a
    ensures IsSubstring(a, s)
    decreases j
  {
    if j > 0 {
      SubstringAt(a, s[1..], j - 1);
      assert s[1..][j - 1..j - 1 + |a|] == s[j..j + |a|];
    } else {
      assert s[..|a|] == s[j..j + |a|];
    }
  }

  lemma {:induction false} RemoveQuotesConcat(a: string, b: string)
    ensures RemoveQuotes(a + b) == RemoveQuotes(a) + RemoveQuotes(b)
  {
    if a == [] {
      assert a + b == b;
    } else {
      assert (a + b)[0] == a[0];
      assert (a + b)[1..] == a[1..] + b;
      RemoveQuotesConcat(a[1..], b);
    }
  }

  /** The dumper writes the text that replaced an included mapping in
      single quotes, since it starts with `!`; the filter turns the dumped
      line back into the `!include` tag. */
  lemma IncludeLineUnquoted(prefix: string, ref: string)
    requires '\'' !in prefix && '\'' !in ref
    ensures FilterLine(prefix + "'" + Include.TAG + " " + ref + "'") == prefix + Include.TAG + " " + ref
  {
    var m := Include.TAG + " " + ref;
    var line := prefix + "'" + Include.TAG + " " + ref + "'";
    assert line == prefix + ("'" + (m + "'"));
    assert IsSubstring(Include.TAG, line) by {
      var j := |prefix| + 1;
      assert line[j..j + |Include.TAG|] == Include.TAG;
      SubstringAt(Include.TAG, line, j);
    }
    assert RemoveQuotes(prefix) == prefix by {
      RemoveQuotesNoQuote(prefix);
    }
    RemoveQuotesConcat(prefix, "'" + (m + "'"));
    QuotedUnquoted(m);
  }

  /** Text between a pair of single quotes comes out bare. */
  lemma QuotedUnquoted(m: string)
    requires '\'' !in m
    ensures RemoveQuotes("'" + (m + "'")) == m
  {
    RemoveQuotesNoQuote(m);
    assert RemoveQuotes("'") == "";
    RemoveQuotesConcat("'", m + "'");
    RemoveQuotesConcat(m, "'");
    assert m + "" == m;
  }
}
