# validate-config cross-check, modelled in Dafny

`scripts/validate-config.js` reads every JSON configuration file of a directory.
For each entry of a file's `merkle_proofs` list it compares the ABI input list
`description.abi.inputs` with the object `description.innerParameters`. It prints
one line for every ABI input whose `name` does not resolve to a truthy inner
parameter. The line names the file, the missing input and the proof label
`description.description`. It also suggests "did you mean" the inner-parameter
key at the same position `j` in `Object.keys` order.

The model:

- `wrappers.dfy` holds `Option`. `None` stands for JavaScript's `undefined`.
- `json.dfy` (module `Json`) holds what the script relies on from JavaScript.
  A parsed JSON `Value` has a truthiness test (`null`, `false`, `0` and `""` are
  falsy). A parsed object is a sequence of (key, value) members in
  `Object.keys` order. `Lookup` models `obj[key]`.
- `validate_config.dfy` (module `ValidateConfig`) holds the typed documents and
  the `Diagnostic` record that stands for one printed line. It also holds the
  specification functions `ProofDiagnostics`, `ConfigDiagnostics` and
  `RunDiagnostics`, built with one `Concat` over per-input, per-proof and
  per-file pieces. The script's three nested loops are the methods
  `CheckProof` (the `j` loop), `CheckConfig` (the `i` loop) and
  `ValidateConfigs` (the loop over files). Each method appends to an output
  sequence and is proved to produce exactly the matching specification
  function. The script writes the three loops inline in one body. The model
  gives each loop level its own method so that each proof stays small.
- `validate_config_properties.dfy` (module `ValidateConfigProperties`) holds
  the lemmas: exactness, completeness, no false positives, counts,
  positional suggestions and output order.
- `validate_config_examples.dfy` (module `ValidateConfigExamples`) holds
  concrete documents with their exact diagnostics.

Documents are immutable values, so the checker cannot change its input. It is a
function of its input, so two runs on the same files give the same lines.

What the script does at the edges:

- The test at line 16 is truthiness, not key membership. A key present with a
  falsy value is reported (`FalsyValueReported`, `FalsyValueSuggestsItself`).
- A suggestion past the end of the inner-parameter keys is JavaScript
  `undefined`. The template prints it as the text `undefined`.
- There is no try/catch. A malformed document or invalid JSON throws and ends
  the whole run. The model takes documents as well-formed typed records, so
  this path does not arise.

## Model

| member | source | states |
|---|---|---|
| `Json.LookupDefinedIff` | scripts/validate-config.js:13-16 | `innerParameters[name]` is defined exactly when `name` is one of `Object.keys(innerParameters)` |
| `Json.LookupAtKey` | scripts/validate-config.js:13-16 | in a parsed object (distinct keys), looking up the key at position `k` yields the value at position `k` |
| `ValidateConfig.CheckProof` | scripts/validate-config.js:11-21 | the `j` loop over `abi.inputs` appends exactly the proof's diagnostics `ProofDiagnostics(file, p)` |
| `ValidateConfig.CheckConfig` | scripts/validate-config.js:10-22 | the `i` loop over `merkle_proofs` appends exactly the document's diagnostics, the proofs' diagnostics concatenated in order |
| `ValidateConfig.ValidateConfigs` | scripts/validate-config.js:6-23 | the loop over the files appends exactly `RunDiagnostics(files)`, the files' diagnostics concatenated in directory order |
| `ValidateConfigProperties.ProofDiagnosticsExact` | scripts/validate-config.js:14-20 | a proof's diagnostics are one per reported input, in increasing input order; an index is reported exactly when its input name is absent from or falsy in `innerParameters` |
| `ValidateConfigProperties.ProofReportsInputIff` | scripts/validate-config.js:13-18 | the input at `j` yields the diagnostic (file, its name, the proof label, key `j` of `innerParameters` or `undefined` when `j` is past the end) exactly when `!innerParameters[name]` holds |
| `ValidateConfigProperties.FalsyValueReported` | scripts/validate-config.js:16 | an input whose name is present with a falsy value is still reported |
| `ValidateConfigProperties.ProofDiagnosticsSound` | scripts/validate-config.js:14-20 | every diagnostic of a proof names that file and proof label and is the diagnostic of some input that is absent or falsy |
| `ValidateConfigProperties.TruthyNeverReported` | scripts/validate-config.js:16-20 | no diagnostic names an input whose name maps to a truthy value |
| `ValidateConfigProperties.ProofDiagnosticsCount` | scripts/validate-config.js:14-20 | no more diagnostics than ABI inputs; none exactly when every input resolves; one per input exactly when none resolves; none for an empty input list whatever `innerParameters` holds |
| `ValidateConfigProperties.ConfigDiagnosticsAppend` | scripts/validate-config.js:10-22 | the diagnostics of a document whose proofs are `ps1 + ps2` are those of `ps1` followed by those of `ps2` |
| `ValidateConfigProperties.ConfigDiagnosticsMember` | scripts/validate-config.js:10-22 | a document reports a diagnostic exactly when one of its proofs does |
| `ValidateConfigProperties.RunDiagnosticsAppend` | scripts/validate-config.js:6-23 | the diagnostics of files `fs1 + fs2` are those of `fs1` followed by those of `fs2` |
| `ValidateConfigProperties.RunDiagnosticsMember` | scripts/validate-config.js:6-23 | a run reports a diagnostic exactly when some proof of some file does, and it names that file and that proof's label |
| `ValidateConfigExamples.RenamedParameter` | scripts/validate-config.js:13-20 | inputs `from, to, amount` against keys `sender, to, amount` give one diagnostic, for `from`, suggesting `sender` |
| `ValidateConfigExamples.EmptyInnerParameters` | scripts/validate-config.js:13-20 | input `owner` against an empty object gives one diagnostic with an `undefined` suggestion |
| `ValidateConfigExamples.FalsyValueSuggestsItself` | scripts/validate-config.js:13-20 | input `x` against `{"x": ""}` is reported and suggests `x` itself |
| `ValidateConfigExamples.SuggestionIgnoresMatches` | scripts/validate-config.js:13-20 | the suggestion is positional: it can name a key that already matches another ABI input |

## Left out

- Directory listing and file reading (`fs.readdirSync`, `fs.readFileSync`, lines 5 and 8): filesystem I/O. The directory is a given sequence of (file name, parsed document) pairs in listing order.
- `JSON.parse` (line 7): a library call. Documents are typed records. An invalid file, or a document without `merkle_proofs`, `abi.inputs` or `innerParameters`, makes the script throw and stop; the model does not represent such documents.
- `console.log` and the text of the message (lines 17-18): each printed line is a `Diagnostic` record. A `None` suggestion is printed as `undefined`.
- Property lookup through the prototype chain (an input named `toString` finds an inherited, truthy function): engine semantics. `Lookup` searches the object's own members only.
- The `Object.keys` rule that lists integer-like keys first: engine semantics. The member sequence is taken to be already in `Object.keys` order.
- ABI inputs whose `name` is missing or not a string: `name` is modelled as a string.
- A missing or non-string proof label `description.description`: line 18 then prints `undefined` or the value's text and goes on; the label is modelled as a string.
- JSON strings holding a lone UTF-16 surrogate (such as `"\ud800"`): a Dafny `string` cannot represent them.
- Member lists with a repeated key stand for no parsed object: `JSON.parse` keeps only the last value of a repeated key, while `Lookup` takes the first match. The lemma `LookupAtKey` assumes distinct keys; the methods and the other lemmas hold for any member list.
- The magnitude of JSON numbers beyond whether the number is zero, which is all truthiness looks at. Numbers are Dafny reals.
- The exit code and the command-line entry point: the script has no logic there.
