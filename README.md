# pysp configuration trees, in Dafny

This project models the configuration engine of `pysp`. The engine has three parts:

- **YAML documents spread over several files.** `YAML.load` follows `!include` tags. It marks every loaded mapping with an `__include__` entry recording where the mapping came from. `YAML.store` splits the tree back into its files.
- **The `Config` class.** It loads a configuration, lays further files over it (`overlay`), and reads and writes values by dotted keys (`get_value`, `set_value`). `store` writes it back.
- **`StrExpand`.** It replaces `$name`/`${name}` placeholders by environment values and `@a.b`/`@{a.b}` placeholders by configuration values. `convert` repeats both until the string stops changing.

A decoded document is a `Tree`: a mapping, a list, a string, `None`, or an unresolved `!include ref` tag.

- A mapping is an ordered association list with Python's dict rules. Keys are unique. Assigning an existing key keeps its place; assigning a new key appends it.
- Order matters. `store` visits the include markers in dict order. Each marker is appended after its mapping is decoded, so every file is visited after the files it includes.

The file system is a map from path to decoded tree. YAML decoding and encoding are left out (see below). What `store` writes is recorded as a list of `(path, tree)` writes. The environment is a parameter.

Modules:

| module | what |
|---|---|
| `Trees` (trees.dfy) | the tree, errors, dict operations (`in`, `d[k]`, `d[k] = v`, `del`), chained indexing and assignment |
| `Paths` (paths.dfy) | `str.split`, `'.'.join`, `in` on strings, `os.path.dirname`, `os.path.join` |
| `Access` (access.dfy) | `get_value` and `set_value` on a tree |
| `Merge` (merge.dfy) | `YAML.merge` |
| `Include` (include.dfy) | `load`, `include`, `store_mark` over a file store |
| `YamlStore` (store.dfy) | `collect_node`, `get_node`, `store_node`, `store` |
| `StoreFile` (storefile.dfy) | the line filter of `store_file` |
| `RoundTrip` (roundtrip.dfy) | load-then-store writes every file back; soundness of `collect_node` |
| `Configs` (config.dfy) | `_fixup_folder` and the `Config` class |
| `Expand` (expand.dfy) | `StrExpand.environ_vars`, `config_vars`, `convert` |

`pysp/yaml.py` is the earlier copy of the `YAML` class. Its `merge`, `store_mark`, `include` and `store` match the ones in `pysp/conf.py`, except that its `store_file` creates no directory. The two files share one model.

## Model

| member | source | states |
|---|---|---|
| Trees.Find | pysp/conf.py:29 | `k in d`: the slot found holds `k` and is the first such; -1 exactly when `k` is not a key |
| Trees.Get | pysp/conf.py:62 | `d[k]` returns a value that `d` holds under `k` |
| Trees.AssignFacts | pysp/conf.py:31 | `d[k] = v`: `k` then holds `v`; every other key keeps its presence and value; key order is kept, or extended by `k` when `k` is new; no key is doubled |
| Trees.AssignTwice | pysp/conf.py:33 | assigning a key twice keeps only the second value |
| Trees.Delete | pysp/conf.py:95 | `del d[k]` drops exactly the slot of `k` and keeps the other keys in order |
| Trees.DeleteFacts | pysp/conf.py:95 | after `del d[k]`, `k` is gone and every other key keeps its value; no key is doubled |
| Trees.Put | pysp/conf.py:83-88 | assignment at a place that chained indexing reaches: indexing there afterwards gives the value assigned |
| Trees.PutPut | pysp/conf.py:95-100 | a second assignment at the same place overrides the first |
| Trees.PutStep | pysp/conf.py:98-100 | assigning one level deeper is assigning the key in the parent mapping |
| Trees.PutSame | pysp/conf.py:83-88 | writing back what indexing found changes nothing |
| Trees.AtConcat | pysp/conf.py:86-87 | indexing by `a` then by `b` is indexing by `a + b` |
| Paths.IndexOf | pysp/conf.py:91 | the first occurrence of the separator, or -1 exactly when absent |
| Paths.Split | pysp/conf.py:91 | `str.split` gives at least one piece, and no piece holds the separator |
| Paths.JoinSplit | pysp/conf.py:91 | joining the pieces of a split gives the string back |
| Paths.SplitJoin | pysp/conf.py:66 | splitting the dot-join of separator-free keys gives the keys back: an xpath leads to the mapping it was built from |
| Paths.Dirname | pysp/conf.py:122 | `os.path.dirname` is the text before the last `/`: `''` for a path without `/`; otherwise non-empty, with the trailing slashes before the last `/` stripped unless that text is all slashes, which is then kept whole |
| Paths.PathJoin | pysp/conf.py:122 | `os.path.join(a, b)` is `b` when `b` is absolute; otherwise it starts with `a` and ends with `b` |
| Paths.StripTrailingSlashes | pysp/conf.py:122 | `rstrip('/')` removes exactly the trailing slashes |
| Access.Contains | pysp/conf.py:176 | `k in data`: key membership for a dict; TypeError exactly when `data` is neither a dict, a str nor a list |
| Access.GetValue | pysp/conf.py:173-180 | the loop of `get_value` computes the segment-by-segment lookup of the split key; `def` is `defvalue`, so a caller relying on Python's default passes `Str("")` |
| Access.LookupThroughMaps | pysp/conf.py:173-180 | through mappings, `get_value` gives the value every segment leads to, or the default as soon as a segment is absent |
| Access.SetValue | pysp/conf.py:182-197 | the loop of `set_value` (walk down creating `{}`, assign the last segment) computes the path assignment of the split key |
| Access.GetAfterSet | pysp/conf.py:182-197 | after a successful `set_value(key, v)`, `get_value(key)` is `v` |
| Access.SetFailsOnlyOnNonMap | pysp/conf.py:186-197 | `set_value` fails exactly when the walk meets an existing value that is not a dict |
| Access.EmptyNeverFails | pysp/conf.py:193-197 | below a freshly created `{}`, `set_value` always succeeds |
| Access.SetKeepsWay | pysp/conf.py:182-197 | `set_value` keeps a way of dicts intact for the same key path and for every key path that parts ways with it |
| Access.SetLeavesOthers | pysp/conf.py:182-197 | `set_value` leaves every key path that parts ways with the one set looking up what it did before |
| Merge.Merged | pysp/conf.py:26-34 | the result is a mapping exactly when the overlay is; when either side is not a mapping, the overlay is returned unchanged |
| Merge.Merge | pysp/conf.py:26-34 | the loop of `merge` over the defaults' entries computes `Merged` |
| Merge.MergedMaps | pysp/conf.py:27-33 | merging two dicts: the keys are the overlay's, in order, then the defaults the overlay lacked; overlay-only keys keep their value, default-only keys take the default, shared keys hold the merge of both; no key is doubled |
| Merge.MergeEntriesKeys | pysp/conf.py:28-31 | after each default is visited, the keys are the overlay's followed by the defaults it lacked so far |
| Merge.MergeEntriesUnique | pysp/conf.py:28-31 | merging into a dict never doubles a key, however many defaults were visited |
| Merge.MergeSelf | pysp/conf.py:26-34 | merging a dict tree with itself changes nothing |
| Merge.EmptyOverlay | pysp/conf.py:28-31 | an empty overlay yields the defaults |
| Merge.MergedDict | pysp/conf.py:26-34 | two dict trees merge into a dict tree |
| Merge.OverlayVehicle | pysp/test/test_conf_config.py:83-89 | the user's `suv.QM6` over the default vehicle keeps the default sedan and the user's values and colour |
| Include.StoreMark | pysp/conf.py:110-118 | fails exactly when the value is not a dict or already holds `__include__`, with the duplicate-marker error in the latter case; otherwise appends exactly `__include__: {fullpath, value}` |
| Include.UnmarkAfterMark | pysp/conf.py:110-118 | deleting the marker again gives back the decoded dict |
| Include.Load | pysp/conf.py:36-43 | a missing file is an error; a loaded document is a mapping whose last entry is the marker holding the file's path and the include reference (None at the top) |
| Include.ResolveEntries | pysp/conf.py:120-124 | resolving includes keeps a mapping's keys in order |
| Include.ResolvePlain | pysp/conf.py:42 | a document without `!include` tags decodes to itself |
| Include.LoadRefusesMarked | pysp/conf.py:111-113 | a file that already holds the marker key cannot be loaded |
| Include.AsWritten | pysp/conf.py:100 | what `store` writes for a file holds no unresolved tag |
| YamlStore.Extend | pysp/conf.py:66 | the child xpath is the key at the root and `xpath.key` below it |
| YamlStore.MarkerNode | pysp/conf.py:61-63 | a node is built exactly when the marker is a dict with `fullpath` and `value`, and holds those two fields |
| YamlStore.PutNode | pysp/conf.py:83-88 | writing through `get_node`'s walk: `get_node` afterwards finds the value written |
| YamlStore.Store | pysp/conf.py:103-108 | the loop of `store` over the collected nodes computes `StoreRun`, stopping at the first exception |
| YamlStore.StoreAll | pysp/conf.py:105-108 | at most one write per node, and exactly one per node when no exception is raised |
| YamlStore.StoreNodeWrite | pysp/conf.py:90-96 | `store_node` writes, to the node's `fullpath`, the mapping at its xpath without the marker and with every other entry unchanged |
| YamlStore.StoreNodeTree | pysp/conf.py:97-100 | after `store_node`, a node without a value (the top document) stays with its marker deleted; a node with a value is replaced in its parent by `'!include ' + value` |
| StoreFile.RemoveQuotes | pysp/conf.py:80 | `replace("'", "")` leaves no quote, is no longer than the line, and keeps the same set of other characters |
| StoreFile.RemoveQuotesConcat | pysp/conf.py:80 | removing quotes works piece by piece, so the other characters keep their order and their number |
| StoreFile.RemoveQuotesNoQuote | pysp/conf.py:80 | a line without quotes is left as it is |
| StoreFile.RemoveQuotesIdempotent | pysp/conf.py:80 | removing quotes twice is removing them once |
| StoreFile.FilterLine | pysp/conf.py:79-80 | only a line mentioning `!include` loses its quotes |
| StoreFile.WriteLines | pysp/conf.py:78-81 | the write loop produces the rendering of the filtered, terminated lines |
| StoreFile.RenderSplits | pysp/conf.py:78-81 | read back line by line, the written text is the filtered lines, each ending with `\n` |
| StoreFile.IncludeLineUnquoted | pysp/conf.py:79-80 | the dumper's quoted `'!include ref'` line is written back as the plain `!include ref` tag |
| RoundTrip.RoundTripStore | pysp/test/test_yaml.py:81-103 | storing a freshly loaded document raises nothing, writes the reached files, each after the files it includes and the top file last, and every file with the content it was read with |
| RoundTrip.FileWritesFaithful | pysp/conf.py:70-108 | every file the reference order lists is written with its own content as read |
| RoundTrip.CollectSound | pysp/conf.py:53-68 | every node `collect_node` reports names, through its xpath, a mapping that `get_node` finds, that carries a marker, and whose `fullpath` and `value` the node holds |
| RoundTrip.EntriesStore | pysp/conf.py:53-68 | storing the nodes collected from a loaded mapping's first entries raises nothing, writes their files in the reference order, and leaves those entries as they are written back |
| RoundTrip.TreeStore | pysp/conf.py:90-101 | storing the nodes of a loaded subtree raises nothing, writes its files in the reference order, and leaves the subtree as written back (an included mapping becomes `!include ref`) |
| RoundTrip.StoreAllConcat | pysp/conf.py:105-108 | storing two node lists in sequence is storing their concatenation |
| RoundTrip.MarkerRoot | pysp/conf.py:99 | the top document's node (no value) is written and never replaced in a parent |
| RoundTrip.MarkerChild | pysp/conf.py:98-100 | an included mapping's node is written and replaced in its parent by `'!include ' + ref` |
| Configs.FixupFolder | pysp/conf.py:145-153 | the loop of `_fixup_folder` computes `Fixup`: nothing without a path, otherwise one `set_value` per node with a value |
| Configs.FixupSkipsValueless | pysp/conf.py:149-150 | nodes without a value are not rewritten |
| Configs.FixupRelocates | pysp/conf.py:145-153 | on a tree `collect_node` walks, with a path: every `set_value` succeeds, each included mapping's marker `fullpath` becomes `dirname(ymlpath)/value` (the top file's folder, even for an include nested in a sub-folder), and every key path apart from these looks up as before |
| Configs.FixupNodesOk | pysp/conf.py:149-153 | the loop's `set_value` calls all succeed when each walks through dicts only and no two share a way |
| Configs.FixupNodesLeave | pysp/conf.py:149-153 | the loop leaves every key path apart from the ones it sets looking up as before |
| Configs.FixupNodesPlace | pysp/conf.py:149-153 | after the loop, a node's fullpath key holds `dir/value` |
| Configs.TargetSplit | pysp/conf.py:151 | the key `'{xpath}.{MARK}.fullpath'`, split on dots, is the xpath's keys then the marker key then `fullpath` |
| Configs.NodeWay | pysp/conf.py:147-153 | below the root, the way to a collected node's `fullpath` passes through dicts only |
| Configs.NodesApart | pysp/conf.py:147-153 | two different collected nodes below the root get fullpath keys that part ways |
| Configs.FixupBareFileName | pysp/conf.py:147-152 | for a file named without a directory, an included mapping's `fullpath` becomes `/ref`: the path is formatted as `'{}/{}'`, not joined |
| Configs.Config.constructor | pysp/conf.py:130-133 | a new configuration is the empty dict; `Config(yml_file)` is this constructor followed by `Loadup` |
| Configs.Config.Loadup | pysp/conf.py:138-143 | the data becomes the loaded file; on failure it is unchanged |
| Configs.Config.Overlay | pysp/conf.py:155-160 | the loaded file is merged over the data, then the folders are fixed; a failed load changes nothing |
| Configs.Config.Store | pysp/conf.py:162-171 | the data is unchanged; the outcome is that of marking a copy with `to_abs`, fixing its folders, and storing it |
| Configs.Config.GetValue | pysp/conf.py:173-180 | `get_value` on the data |
| Configs.Config.SetValue | pysp/conf.py:182-197 | `set_value` on the data; a failure changes nothing |
| Expand.RunEnd | pysp/basic.py:39 | the bare name is the longest run of name characters |
| Expand.MatchAt | pysp/basic.py:39 | a match spans at least the sigil and one more character |
| Expand.ScanSpells | pysp/basic.py:40 | the scanner loses nothing: its pieces spell the scanned text |
| Expand.ScanRefs | pysp/basic.py:39 | every placeholder found is the sigil and a bare name, or a braced name up to the first `}` |
| Expand.ScanNoSigil | pysp/basic.py:39-40 | a string without the sigil has no placeholder |
| Expand.EnvironVarsUnchanged | pysp/basic.py:27-40 | without any known variable and with no default, `environ_vars` returns the string unchanged |
| Expand.EnvironBare | pysp/basic.py:34-40 | `$name` becomes the variable's value, else the default, else stays as written |
| Expand.EnvironBraced | pysp/basic.py:34-40 | `${inner}` becomes the variable `inner`'s value (`{}` when empty), else the default, else stays as written |
| Expand.EnvironEscaped | pysp/basic.py:39 | with `skip_escaped`, a `$` right after a backslash is left alone |
| Expand.ValueText | pysp/basic.py:46-51 | rendering fails exactly for a dict |
| Trees.Quote | pysp/basic.py:48 | `repr` of a string, as `str` of a nested list writes it: double quotes exactly when the string holds `'` and no `"`, and reading the escaped body back gives the string |
| Trees.UnescapeEscaped | pysp/basic.py:48 | the escapes `repr` writes (the quote in use, backslash, `\t`, `\n`, `\r`, `\xhh`) read back to the string |
| Trees.EscapedPlain | pysp/basic.py:48 | printable ASCII without backslashes or the quote in use is written as it is |
| Trees.NestedQuote | pysp/basic.py:48 | `str([["it's"]])` is `[["it's"]]`: a string with `'` inside a nested list prints in double quotes |
| Expand.ConfigVars | pysp/basic.py:53-54 | without a configuration the string is returned unchanged |
| Expand.ConfigVarsNoSigil | pysp/basic.py:43-56 | a string without `@` is returned unchanged |
| Expand.ConfigVarsBare | pysp/basic.py:44-51 | `@a.b` becomes the rendering of `get_value("a.b")`, whose default is its own text; a failed lookup or a dict value fails |
| Expand.ConfigVarsBraced | pysp/basic.py:44-51 | `@{inner}` becomes the rendering of the value at `inner`, or fails as above |
| Expand.Convert | pysp/basic.py:59-72 | the loop of `convert` computes `Run` of one expansion pass (`PassOf`: `environ_vars` then `config_vars`) from zero passes |
| Expand.ConvertLoop | pysp/basic.py:62-71 | the `while` loop, for any pass: its result is `Run` of that pass from zero passes (stop on no change, error on the 31st changing pass) |
| Expand.ConvertFixedPoint | pysp/basic.py:62-67 | the result of `convert` is reached within 31 passes, and one more pass leaves it unchanged |
| Expand.ConvertLoopLimit | pysp/basic.py:68-71 | `convert` gives up exactly when each of the first 31 passes succeeds and changes the string |
| Expand.PassNeverLoopLimit | pysp/basic.py:64 | a single pass never reports the loop limit |

## Left out

- The YAML codec (`yaml.load`, `yaml.dump`, `add_constructor`). A file is given already decoded, with its `!include ref` tags as `Include(ref)` leaves. A write records the tree instead of its dumped text. The line filter of `store_file` is modelled separately, on already dumped lines.
- `load`'s fallback of parsing its argument as YAML text when no such file exists: the model reports a missing file as an error.
- File-system calls (`os.path.exists`, `codecs.open`, `os.makedirs`, `os.path.abspath`). Files are a map from path to tree, `abspath` is the identity, and directories are not created.
- `os.environ` is the parameter `env`. Word characters are ASCII letters, digits and `_`, not Unicode `\w`.
- Numbers and booleans are strings (`Str`), so `str()` of a non-string scalar is not modelled.
- Trees.Repr: non-ASCII characters that Python's `repr` escapes as not printable (`\x..`, `\u....`, `\U........`) are kept as they are, because the Unicode printability table is not modelled; ASCII quoting and escapes are modelled.
- Access.Contains: `in` on a number or a boolean is modelled on its text, where Python raises TypeError (`get_value('a.b')` on `{a: 4}` raises, the model gives the default) or compares list items by type (`get_value('l.4')` on `{l: [4]}` gives the default, the model a type error).
- `Include.Load`: Python's recursion limit, which stops an include cycle, is a `fuel` bound standing for the include depth.
- Aliasing. `merge` and `store_node` mutate dicts in place, and a merged tree shares sub-dicts with the defaults. The model computes new values, so sharing between the configuration and other trees is not captured.
- Debug printing (`dprint`, `iprint`) and the `PyspError` messages' text.
- Marker order. The design description of `store` says markers are collected parent before child. The code collects them in dict order, and each marker is appended after its mapping is decoded, so children come first. The model follows the code.
- RoundTrip.RoundTripStore: proved for files whose mappings have unique, non-empty, dot-free keys other than `__include__`, whose `!include` tags are mapping values (not list items), and whose references are non-empty. Outside these conditions, `store` can fail to find a node again by its xpath.
- RoundTrip.CollectSound: states soundness only. That `collect_node` reports every marked mapping reachable through dict values is used inside the round-trip proof for loaded trees, but is not stated for arbitrary trees.
- YamlStore.StoreNode: its own contract only says that a run without an exception writes a file. What is written and where the tree is left are the lemmas `StoreNodeWrite` and `StoreNodeTree`.
- Expand.ConfigVarsBare, Expand.ConfigVarsBraced, Expand.EnvironBare, Expand.EnvironBraced and Expand.EnvironEscaped: stated for a string holding a single placeholder. Strings with several placeholders are covered by the scanner lemmas and by `Convert`'s loop, not by a closed formula.
