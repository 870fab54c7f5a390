/**
 * The cross-check of scripts/validate-config.js: for every configuration file,
 * every merkle proof and every ABI input of that proof, report the input whose
 * name does not resolve to a truthy inner parameter, with the inner-parameter
 * key at the same position as a suggested correction.
 */
module ValidateConfig {
  import opened Wrappers
  import opened Json

  datatype AbiInput = AbiInput(name: string)

  datatype Abi = Abi(inputs: seq<AbiInput>)

  /** `merkleProof.description`: a label, the ABI and the inner-parameter object. */
  datatype Description = Description(description: string, abi: Abi, innerParameters: Members)

  datatype MerkleProof = MerkleProof(description: Description)

  /** A parsed configuration document. */
  datatype Config = Config(merkleProofs: seq<MerkleProof>)

  /** One entry of the configuration directory: the file name and its parsed document. */
  datatype ConfigFile = ConfigFile(name: string, config: Config)

  /** One printed line; a `None` suggestion is printed as the text "undefined". */
  datatype Diagnostic = Diagnostic(file: string, missing: string, proofLabel: string, suggestion: Option<string>)

  /** `!innerParameters[name]`: the name is absent or maps to a falsy value. */
  predicate MissingInner(innerParameters: Members, name: string) {
    match Lookup(innerParameters, name)
    case None => true
    case Some(v) => !Truthy(v)
  }

  /** Whether the ABI input at index `j` of the proof is reported. */
  predicate MissingAt(p: MerkleProof, j: nat)
    requires j < |p.description.abi.inputs|
  {
    MissingInner(p.description.innerParameters, p.description.abi.inputs[j].name)
  }

  /** `innerParametersNames[j]`, which is `undefined` past the end. */
  function Suggestion(names: seq<string>, j: nat): Option<string> {
    if j < |names| then Some(names[j]) else None
  }

  /** The diagnostic that the ABI input at index `j` produces when it is reported. */
  function DiagnosticAt(file: string, p: MerkleProof, j: nat): Diagnostic
    requires j < |p.description.abi.inputs|
  {
    Diagnostic(file, p.description.abi.inputs[j].name, p.description.description,
               Suggestion(Keys(p.description.innerParameters), j))
  }

  /** Concatenation, in order, of a sequence of sequences. */
  function Concat<T>(ss: seq<seq<T>>): seq<T> {
    if ss == [] then [] else Concat(ss[..|ss| - 1]) + ss[|ss| - 1]
  }

  lemma ConcatSnoc<T>(ss: seq<seq<T>>, n: nat)
    requires n < |ss|
    ensures Concat(ss[..n + 1]) == Concat(ss[..n]) + ss[n]
  {
    assert ss[..n + 1][..n] == ss[..n];
  }

  /** What each ABI input of a proof contributes: one diagnostic or none. */
  function PerInput(file: string, p: MerkleProof): seq<seq<Diagnostic>> {
    var inputs := p.description.abi.inputs;
    seq(|inputs|, j requires 0 <= j < |inputs| =>
      if MissingAt(p, j) then [DiagnosticAt(file, p, j)] else [])
  }

  /** The lines printed for one proof: the inner `j` loop. */
  function ProofDiagnostics(file: string, p: MerkleProof): seq<Diagnostic> {
    Concat(PerInput(file, p))
  }

  function PerProof(file: string, c: Config): seq<seq<Diagnostic>> {
    seq(|c.merkleProofs|, i requires 0 <= i < |c.merkleProofs| => ProofDiagnostics(file, c.merkleProofs[i]))
  }

  /** The lines printed for one document: the `i` loop over `merkle_proofs`. */
  function ConfigDiagnostics(file: string, c: Config): seq<Diagnostic> {
    Concat(PerProof(file, c))
  }

  function PerFile(files: seq<ConfigFile>): seq<seq<Diagnostic>> {
    seq(|files|, f requires 0 <= f < |files| => ConfigDiagnostics(files[f].name, files[f].config))
  }

  /** The lines printed for the whole directory: the loop over `files`. */
  function RunDiagnostics(files: seq<ConfigFile>): seq<Diagnostic> {
    Concat(PerFile(files))
  }

  /**
   * The script's inner loop (lines 14-21) for one proof: append a diagnostic
   * for every ABI input whose name does not resolve to a truthy inner parameter.
   */
  method CheckProof(file: string, merkleProof: MerkleProof) returns (out: seq<Diagnostic>)
    ensures out == ProofDiagnostics(file, merkleProof)
  {
    out := [];
    var innerParameters := merkleProof.description.innerParameters;
    var innerParametersNames := Keys(innerParameters);
    for j := 0 to |merkleProof.description.abi.inputs|
      invariant out == Concat(PerInput(file, merkleProof)[..j])
    {
      var abiInput := merkleProof.description.abi.inputs[j];
      var value := Lookup(innerParameters, abiInput.name);
      if value.None? || !Truthy(value.value) {
        out := out + [Diagnostic(file, abiInput.name, merkleProof.description.description,
                                 Suggestion(innerParametersNames, j))];
      }
      ConcatSnoc(PerInput(file, merkleProof), j);
    }
    assert PerInput(file, merkleProof) == PerInput(file, merkleProof)[..|merkleProof.description.abi.inputs|];
  }

  /** The loop over `config.merkle_proofs` (lines 10-22) for one document. */
  method CheckConfig(file: string, config: Config) returns (out: seq<Diagnostic>)
    ensures out == ConfigDiagnostics(file, config)
  {
    out := [];
    for i := 0 to |config.merkleProofs|
      invariant out == Concat(PerProof(file, config)[..i])
    {
      var lines := CheckProof(file, config.merkleProofs[i]);
      out := out + lines;
      ConcatSnoc(PerProof(file, config), i);
    }
    assert PerProof(file, config) == PerProof(file, config)[..|config.merkleProofs|];
  }

  /** The loop over the files of the configuration directory (lines 6-23). */
  method ValidateConfigs(files: seq<ConfigFile>) returns (out: seq<Diagnostic>)
    ensures out == RunDiagnostics(files)
  {
    out := [];
    for f := 0 to |files|
      invariant out == Concat(PerFile(files)[..f])
    {
      var lines := CheckConfig(files[f].name, files[f].config);
      out := out + lines;
      ConcatSnoc(PerFile(files), f);
    }
    assert PerFile(files) == PerFile(files)[..|files|];
  }
}
