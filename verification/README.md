# compconf, modelled in Dafny

compconf is a wrapper around the CSL compiler `cslc`. It builds one
configuration document in layers:

1. the JSON file named by `--compconf-data`, or an empty dict;
2. the sentinel entry `_compconf_dummy:u32 = 42`, which makes the compiler read
   the document as a struct;
3. every `COMPCONFENV_*` environment variable, whose name turns into a key by
   dropping the prefix and spelling each `__` as `:`;
4. each `--compconf-jq` command in turn.

It then writes two CSL modules next to the data file:

- the accessor module, which imports the data file as a comptime struct and
  defines `has_value`, `get_value` and `get_value_or`;
- the raw module, with one `const` declaration per entry.

Finally it builds the compiler's search path and command line.

The model follows the code in `compconf/__main__.py` step by step:

| Module | What it models |
|---|---|
| `PyStr` | The Python string operations the script uses: `_removeprefix`, `str.replace`, `str.split` and `str.join` on one character. |
| `Json` | JSON values and the dict as an insertion-ordered sequence of entries, with Python's `d[k] = v`. |
| `KeyCodec` | How a variable name becomes a key. |
| `EnvOverlay` | The loop over the environment. |
| `Transform` | The jq fold. |
| `Merge` | The layers in code order. |
| `AccessorSource` | The accessor template. |
| `PyRepr` | Python's `repr` of a decoded JSON value, and the raw literal built from it. |
| `RawSource` | The raw module. |
| `LiteralReader` | A reader for the literals. It is this model's own inverse of the writer and does not come from the source. |
| `ImportPaths` | The search path and the compiler argv. |
| `Driver` | One run from the inputs to the artifacts handed to the compiler. |

Anything the script asks of the outside world is a function parameter:

- `json.loads`, returning `None` on a `JSONDecodeError` (its other exceptions are under "Left out");
- the first result of a jq program, returning `None` when there is none;
- `os.path.abspath`;
- Python's printability test for characters above U+007F.

The base file's text, the environment (a sequence of name/value pairs in
`os.environ` order) and the scratch directory are inputs.

Points of the code's order worth knowing:

- The sentinel is assigned right after the base is loaded (line 128). That is
  before the overlay and the jq commands. An overlay variable that decodes to
  the same key (`COMPCONFENV__compconf_dummy__u32`) can overwrite its value, but
  the overlay only ever assigns; only a jq command can remove it.
- A jq result that is not an object does not stop the merge. The run fails
  only when the raw module is built (`data.items()`, line 108), and by then the
  data file has been written and copied. `Driver.Run` reports this as
  `DataNotObject`, which carries the dump copy: it outlives the failed run.
- A base file that parses to something other than a dict fails at the sentinel
  assignment. This is `Merge.BaseNotObject`.

## Model

| member | source | states |
|---|---|---|
| PyStr.RemovePrefix | compconf/__main__.py:17-20 | When the text starts with the prefix, the prefix plus the result gives back the text. Otherwise the text is returned unchanged. |
| PyStr.RemovePrefixInverse | compconf/__main__.py:17-20 | Stripping a prefix that was just prepended gives back exactly the rest. |
| PyStr.Replace | compconf/__main__.py:135 | `str.replace`, scanning left to right and consuming each match whole. It has no contract of its own: `ReplaceCharAppend` and `ReplaceCharRemoves` state its effect on a one-character pattern, and `KeyCodec.DunderRewriteLeavesNone` its `__` removal. |
| PyStr.Split | compconf/__main__.py:177 | `split(':')` gives one more piece than there are separators. No piece holds the separator, and joining the pieces with it gives back the text. |
| PyStr.SplitJoin | compconf/__main__.py:177-182 | Joining separator-free pieces with `:` and splitting again gives back the same pieces. |
| PyStr.Join | compconf/__main__.py:182 | `":".join(paths)`. It has no contract of its own; `Split` and `SplitJoin` state its inverse. |
| PyStr.ReplaceCharAppend | compconf/__main__.py:109 | Replacing a one-character pattern works piecewise over a concatenation. |
| PyStr.ReplaceCharRemoves | compconf/__main__.py:109 | After every `'` is replaced by `"`, no `'` is left. |
| KeyCodec.DunderRewriteLeavesNone | compconf/__main__.py:135 | `replace("__", ":")` leaves no `__` behind, and keeps a first character that is not `_`. |
| KeyCodec.EnvNameRoundTrip | compconf/__main__.py:132-135 | For every key in which `_` is never followed by `_` or `:`, the variable named `COMPCONFENV_` plus the key with each `:` written as `__` carries the prefix and decodes to exactly that key. |
| KeyCodec.EnvKey | compconf/__main__.py:132-135 | The key a variable name sets (`_removeprefix`, then `replace("__", ":")`). Its contract says the key never holds `__`, by `DunderRewriteLeavesNone`; `EnvNameRoundTrip` and `ExampleKey` state which names reach which keys. |
| KeyCodec.ExampleKey | compconf/__main__.py:132-135 | `COMPCONFENV_x__u32` decodes to the key `x:u32`. |
| Json.IndexOf | compconf/__main__.py:128 | The position found holds the key, no earlier entry holds it, and there is no position exactly when the key is absent. |
| Json.Set | compconf/__main__.py:128 | `d[k] = v` makes `k` read `v` and leaves every other key's value alone. A present key keeps the key order; a new key is appended last. Unique keys stay unique. |
| EnvOverlay.ApplyEnv | compconf/__main__.py:131-142 | The overlay never drops or reorders an existing key, and it keeps keys unique. |
| EnvOverlay.OverlayKeyOrder | compconf/__main__.py:131-142 | The keys after the overlay are the old keys in their order. After them come the new keys, each in the order its first overlay variable appears in the environment, as the reference `AddedKeys` lists them. |
| EnvOverlay.OverlayValue | compconf/__main__.py:136-142 | The value one variable assigns: the parsed text, or the text itself when parsing fails. It has no contract of its own; `OverlayGet` states its effect on the document. |
| EnvOverlay.Step | compconf/__main__.py:133-142 | One pass of the loop. It has no contract of its own; `StepGet`, `StepKeys` and `OverlayGet` state its effect. |
| EnvOverlay.ApplyEnvAppend | compconf/__main__.py:131-142 | Running the loop over two halves of the environment is running it over the first half, then the second. |
| EnvOverlay.OverlayGet | compconf/__main__.py:131-142 | After the overlay, a key holds the value of the last prefixed variable that decodes to it. A key no variable names keeps its old value. A key is present exactly when it was present before or some variable names it. |
| EnvOverlay.OnlyOverlayVariablesMatter | compconf/__main__.py:133 | Variables without the `COMPCONFENV_` prefix have no effect. Removing them all gives the same document. |
| EnvOverlay.NoOverlayNoChange | compconf/__main__.py:133 | An environment with no prefixed variable leaves the document unchanged. |
| EnvOverlay.Lookup | compconf/__main__.py:176-177 | The lookup finds a value exactly when some variable has that name, and the value returned belongs to a variable of that name. |
| Transform.RunJq | compconf/__main__.py:145-148 | A failing jq fold names a command that exists. |
| Transform.RunJqAppend | compconf/__main__.py:145-148 | Folding `a + b` is folding `a`, then `b` on its output. A failure index in `b` is shifted by `|a|`. |
| Transform.FailsAt | compconf/__main__.py:145-148 | The fold stops at command `i` exactly when every earlier command gave a result and command `i` gives none on the previous output. |
| Transform.LastCommandDecides | compconf/__main__.py:145-148 | Appending a command succeeds exactly when the prefix succeeds and the new command yields a result, and that result is the final document. |
| Merge.BaseValue | compconf/__main__.py:121-125 | With no data file the base is `{}`. Loading fails exactly when the given text does not parse. Otherwise the base is the parsed value. |
| Merge.Overlaid | compconf/__main__.py:121-142 | Before jq, only the base can fail: either it does not parse or it is not a dict. |
| Merge.Merge | compconf/__main__.py:121-148 | The merge fails with `BaseNotJson` exactly when the base text does not parse, and with `BaseNotObject` exactly when it parses to a non-dict. Once the base is a dict, the result is the jq fold of the overlaid document: its value when every command yields one, and `JqNoResult(i)` when command `i` is the first to yield none. |
| Merge.LayerPrecedence | compconf/__main__.py:121-142 | Before jq, a key holds the last overriding variable's value if there is one, else 42 for the sentinel key, else its base value. Base keys stay in front and in order. |
| Merge.MergeLastCommand | compconf/__main__.py:145-148 | Adding a jq command makes the merge succeed exactly when the shorter merge succeeds and the new command yields a result on its output, and that result is then the merged document. |
| Merge.MergeFailsAt | compconf/__main__.py:145-148 | The merge fails at command `i` exactly when the base is a dict, every earlier command yields a result, and command `i` yields none on the previous output. |
| Merge.NoCommandsNoChange | compconf/__main__.py:145-148 | With no jq command, the merged document is the overlaid one. |
| Merge.BaseOnly | compconf/__main__.py:121-128 | With a dict base and no overlay or command, the result is the base with the sentinel. The sentinel is appended after the base keys, or overwritten in place when the base already has it. Every other key keeps its value. |
| Merge.NothingGiven | compconf/__main__.py:121-128 | No base, no overlay and no command give the document `{"_compconf_dummy:u32": 42}`. |
| AccessorSource.DataPathRoundTrip | compconf/__main__.py:68-102 | The accessor source splits back around its fixed texts to exactly the data path. |
| AccessorSource.SourceInjective | compconf/__main__.py:68-102 | Different data paths give different accessor sources. |
| AccessorSource.MakeCslSource | compconf/__main__.py:68-102 | `make_csl_source`: the fixed template with the data path spliced in. It has no contract of its own; `DataPathRoundTrip`, `SourceInjective` and `ImportedPathExact` state its properties. |
| AccessorSource.ImportedPathExact | compconf/__main__.py:70 | The import statement's string literal is exactly the data path precisely when the path holds no `"`. The path is spliced in without escaping. |
| PyRepr.Literal | compconf/__main__.py:109 | A raw literal never contains `'`. |
| PyRepr.Repr | compconf/__main__.py:109 | `repr` of a decoded JSON value. It has no contract of its own; `Literal`, `LiteralReader.LiteralIsText` and `LiteralReader.LiteralRoundTrip` state what is read back from it. |
| PyRepr.StrRepr | compconf/__main__.py:109 | `repr` of a string opens and closes with the quote `repr` picks: `"` when the text has a `'` and no `"`, and `'` otherwise. |
| PyRepr.EscapeChar | compconf/__main__.py:109 | Each character is written either as itself or as an escape starting with `\`. Only a character that is neither the delimiter nor `\` is written as itself. |
| PyRepr.IntRepr | compconf/__main__.py:109 | `repr` of an int. It has no contract of its own; `LiteralReader.IntReprShape` states its shape and value. |
| LiteralReader.IntReprShape | compconf/__main__.py:109 | `repr` of an int starts with `-` exactly when the int is negative. Every later character is a decimal digit, and the digits spell the magnitude. The text holds no `'`. |
| LiteralReader.EscapeRead | compconf/__main__.py:109 | A string escaped the way `repr` escapes it reads back to the same string, whatever characters it holds, as long as it has no quote character. |
| LiteralReader.LiteralIsText | compconf/__main__.py:109 | For quote-free values, the `'`→`"` replacement only changes the delimiters of strings and keys: the literal is the double-quoted rendering. |
| LiteralReader.LiteralRoundTrip | compconf/__main__.py:109 | A quote-free value's raw literal reads back to the same value, including nested lists and dicts in order. |
| RawSource.MakeCslRaw | compconf/__main__.py:105-111 | The raw module starts with the header comment. It contains `'` exactly when some key does. |
| RawSource.RawLine | compconf/__main__.py:109 | One declaration `const <key> = <literal>;`. It has no contract of its own; `LineRead` states how it reads back. |
| RawSource.LineRead | compconf/__main__.py:109 | One declaration reads back as `const`, its key, `=`, then its value, followed by `;` and a newline. |
| RawSource.RawRoundTrip | compconf/__main__.py:105-111 | If no key has a space and no string value has a quote, reading the raw module gives back every entry, in the dict's order. |
| RawSource.ApostropheBreaksLiteral | compconf/__main__.py:109 | The string `it's` is written as `"it"s"`, which reads back as the different string `it`. |
| ImportPaths.ResolveImportPaths | compconf/__main__.py:175-179 | The search path is the explicit paths, then the scratch directory, then each `:`-piece of an inherited `CSL_IMPORT_PATH`, each made absolute, in that order and with nothing dropped. |
| ImportPaths.ImportPathValueRoundTrip | compconf/__main__.py:182-185 | The exported `CSL_IMPORT_PATH` splits back into the resolved paths when none holds `:`. |
| ImportPaths.ImportPathValue | compconf/__main__.py:182 | The exported `CSL_IMPORT_PATH`. It has no contract of its own; `ImportPathValueRoundTrip` states its inverse. |
| ImportPaths.InterleaveAt | compconf/__main__.py:189-193 | In the flag/path sequence, position `2i` is `--import-path` and position `2i+1` is the `i`-th path. |
| ImportPaths.Interleave | compconf/__main__.py:189-193 | The flattened `zip(repeat("--import-path"), paths)`: two words per path. Their positions are stated by `InterleaveAt`. |
| ImportPaths.CompilerArgv | compconf/__main__.py:186-195 | The compiler comes first, then two words per path, then the unknown arguments, unchanged at the end. |
| ImportPaths.CompilerArgvPairs | compconf/__main__.py:186-195 | Each resolved path appears right after its own `--import-path` flag, in order. |
| ImportPaths.ArgvRoundTrip | compconf/__main__.py:186-195 | Reading the argv back gives the compiler, the paths and the unknown arguments, unless the unknown arguments themselves start with an `--import-path` pair. |
| ImportPaths.ResolveExample | compconf/__main__.py:175-195 | Explicit paths `/a` and `/b` with scratch directory `/tmp/xyz` give that search path, `/a:/b:/tmp/xyz` and the seven-word command line. |
| Driver.Run | compconf/__main__.py:121-195 | A run fails exactly when the merge fails or its result is not a dict, and a merge failure is passed on unchanged. On success, the data is the merged document and the data path is `<tmpdir>/data.json`, which the accessor source imports. The data file is copied exactly when the dump path is non-empty, and then to that path; a run that fails because the data is not a dict reports the merged data and that same copy, since the copy is made before `data.items()` fails. The search path is the resolved list: explicit paths, the scratch directory, then the inherited `CSL_IMPORT_PATH` pieces. The exported variable is that list joined by `:`. The argv is the compiler, a `--import-path` flag before each resolved path, then the unknown arguments, as `CompilerArgv` builds it. |
| Driver.DataPath | compconf/__main__.py:152 | `f"{tmpdir}/data.json"`. It has no contract of its own; `Run` states that the accessor source imports it. |
| Driver.RunRawReadsBack | compconf/__main__.py:105-111 | A successful run's raw module reads back to its merged entries when keys have no spaces and strings have no quotes. |
| Driver.RunArgvReadBack | compconf/__main__.py:186-195 | A successful run's command line reads back to the compiler, the resolved paths and the unknown arguments, whatever characters the paths hold, unless the unknown arguments start with an `--import-path` pair. |
| Driver.RunArgvPairs | compconf/__main__.py:189-193 | In every successful run's command line, the `i`-th resolved path sits right after its own `--import-path` flag. |
| Driver.RunPathsReadBack | compconf/__main__.py:175-182 | A successful run's exported variable splits back into its search path when no path holds a `:`. |
| Driver.OneVariableExample | compconf/__main__.py:121-173 | No base, `COMPCONFENV_x__u32=1` and no jq give the data `{"_compconf_dummy:u32": 42, "x:u32": 1}`, and a raw module declaring both in that order. |

## Left out

- Parsing the command line (`make_parser`, `parse_known_args`) is not modelled. The model takes the parsed values in `Driver.Invocation`, including the arguments `cslc` should receive.
- File and process I/O is not modelled: reading the base file, writing the data file and the two modules, `shutil.copy` to the dump path, the temporary directory's creation and removal, and the `subprocess.run` call. The model returns what would be written and where, plus the argv; when the run fails at `data.items()`, the failure carries the dump copy already made. A failure to read or write a file is outside the model.
- The file name of each module (`compconf.csl`, `compconf_raw.csl`) is a fixed name and is not modelled.
- Logging and `--compconf-verbose` are not modelled because they have no effect on the result.
- The JSON parser and jq itself are parameters and are not modelled. A jq program that fails to compile and one with no first result are both the same `JqNoResult`.
- `EnvOverlay.OverlayValue` falls back to the raw text only when the text does not parse. The model has no outcome for the other exceptions `json.loads` can raise: `ValueError` for an integer with more than 4300 digits, and `RecursionError` for input nested too deeply. Line 138 catches only `JSONDecodeError`, so either error aborts the run with a traceback; the same errors in the base file abort it too.
- Names, values and strings holding lone surrogates are not modelled. Python's `os.environ` decodes undecodable bytes into such characters, and `repr` writes them as `\udcXX`. A Dafny `char` cannot hold a surrogate.
- Floats are left out of the JSON values because their `repr` is a separate algorithm.
- `os.environ` is taken as a list of name/value pairs, in the order Python iterates it.
- Assigning `CSL_IMPORT_PATH` back into the environment is returned as `importPathValue` rather than performed.
- `EnvOverlay.Lookup` returns the first pair with the name. A real environment has only one.
- `RawSource.RawRoundTrip` and `LiteralReader.LiteralRoundTrip` are stated only for values whose strings contain neither `'` nor `"`, and for keys without spaces. With a `'`, the replacement breaks the literal, as `RawSource.ApostropheBreaksLiteral` shows. With a `"` and no `'`, `repr` delimits with `'` and leaves the `"` bare, so after the replacement the `"` ends the literal early in the same way (`a"b` is written `"a"b"`). With both quotes, `repr` escapes the `'` as `\'`, and the replacement turns that into `\"`.
- `AccessorSource.ImportedPathExact` covers paths with a `"`: the literal then ends early. It reads the literal without interpreting backslash escapes, so it does not say what the compiler makes of a `\` in the path.
- `ImportPaths.ArgvRoundTrip` excludes unknown arguments that start with `--import-path` and a value. Those are indistinguishable from the generated pairs.
- `Driver.Run` does not state the contents of the raw module; `RawSource` states them.
