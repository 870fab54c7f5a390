/**
 * What the diagnostics of scripts/validate-config.js are: exactly one per ABI
 * input whose name does not resolve to a truthy inner parameter, in input order,
 * carrying the positional suggestion; documents and proofs contribute their
 * diagnostics in order.
 */
module ValidateConfigProperties {
  import opened Wrappers
  import opened Json
  import opened ValidateConfig

  // ---------------------------------------------------------------------------
  // Concatenation

  lemma {:induction false} ConcatAppend<T>(a: seq<seq<T>>, b: seq<seq<T>>)
    ensures Concat(a + b) == Concat(a) + Concat(b)
    decreases |b|
  {
    if b != [] {
      var b' := b[..|b| - 1];
      assert (a + b)[..|a + b| - 1] == a + b';
      ConcatAppend(a, b');
    } else {
      assert a + b == a;
    }
  }

  lemma {:induction false} ConcatMember<T>(ss: seq<seq<T>>, x: T)
    ensures x in Concat(ss) <==> exists i :: 0 <= i < |ss| && x in ss[i]
  {
    if ss != [] {
      var init := ss[..|ss| - 1];
      ConcatMember(init, x);
      if x in Concat(init) {
        var i :| 0 <= i < |init| && x in init[i];
        assert x in ss[i];
      }
      if i :| 0 <= i < |ss| && x in ss[i] {
        if i < |init| {
          assert x in init[i];
        }
      }
    }
  }

  // ---------------------------------------------------------------------------
  // One proof

  /** The indices of the reported ABI inputs among the first `n`, in order. */
  ghost function MissingIndices(p: MerkleProof, n: nat): (idx: seq<nat>)
    requires n <= |p.description.abi.inputs|
    ensures |idx| <= n
    ensures forall k :: 0 <= k < |idx| ==> idx[k] < n
    ensures forall a, b :: 0 <= a < b < |idx| ==> idx[a] < idx[b]
  {
    if n == 0 then []
    else MissingIndices(p, n - 1) + (if MissingAt(p, n - 1) then [n - 1] else [])
  }

  lemma {:induction false} MissingIndicesIff(p: MerkleProof, n: nat, j: nat)
    requires n <= |p.description.abi.inputs|
    ensures j in MissingIndices(p, n) <==> j < n && MissingAt(p, j)
  {
    if n > 0 {
      MissingIndicesIff(p, n - 1, j);
    }
  }

  /** All of the first `n` inputs are reported exactly when `n` indices are. */
  lemma {:induction false} MissingIndicesAll(p: MerkleProof, n: nat)
    requires n <= |p.description.abi.inputs|
    ensures |MissingIndices(p, n)| == n <==> forall j :: 0 <= j < n ==> MissingAt(p, j)
  {
    if n > 0 {
      MissingIndicesAll(p, n - 1);
    }
  }

  lemma {:induction false} ProofPrefixByIndex(file: string, p: MerkleProof, n: nat)
    requires n <= |p.description.abi.inputs|
    ensures |Concat(PerInput(file, p)[..n])| == |MissingIndices(p, n)|
    ensures forall k :: 0 <= k < |MissingIndices(p, n)| ==>
              Concat(PerInput(file, p)[..n])[k] == DiagnosticAt(file, p, MissingIndices(p, n)[k])
  {
    if n > 0 {
      ProofPrefixByIndex(file, p, n - 1);
      ConcatSnoc(PerInput(file, p), n - 1);
    }
  }

  /**
   * The diagnostics of a proof are exactly, and in order, the diagnostics of
   * the inputs whose names do not resolve to a truthy inner parameter.
   */
  lemma ProofDiagnosticsExact(file: string, p: MerkleProof)
    ensures var ds, idx := ProofDiagnostics(file, p), MissingIndices(p, |p.description.abi.inputs|);
      && |ds| == |idx|
      && (forall k :: 0 <= k < |idx| ==> ds[k] == DiagnosticAt(file, p, idx[k]))
      && (forall a, b :: 0 <= a < b < |idx| ==> idx[a] < idx[b])
      && (forall j: nat :: j in idx <==> j < |p.description.abi.inputs| && MissingAt(p, j))
  {
    var n := |p.description.abi.inputs|;
    assert PerInput(file, p) == PerInput(file, p)[..n];
    ProofPrefixByIndex(file, p, n);
    forall j: nat {
      MissingIndicesIff(p, n, j);
    }
  }

  /**
   * The input at index `j` is reported, naming the file, the input, the proof
   * label and the key at position `j` of the inner parameters (`undefined`
   * past their end), exactly when `!innerParameters[name]` holds.
   */
  lemma ProofReportsInputIff(file: string, p: MerkleProof, j: nat)
    requires j < |p.description.abi.inputs|
    ensures var d := p.description;
      Diagnostic(file, d.abi.inputs[j].name, d.description,
                 if j < |d.innerParameters| then Some(d.innerParameters[j].0) else None)
        in ProofDiagnostics(file, p)
      <==> MissingInner(d.innerParameters, d.abi.inputs[j].name)
  {
    var ds, idx := ProofDiagnostics(file, p), MissingIndices(p, |p.description.abi.inputs|);
    ProofDiagnosticsExact(file, p);
    var target := DiagnosticAt(file, p, j);
    if MissingAt(p, j) {
      assert j in idx;
      var k :| 0 <= k < |idx| && idx[k] == j;
      assert ds[k] == target;
    }
    if target in ds {
      var k :| 0 <= k < |ds| && ds[k] == target;
      assert MissingAt(p, idx[k]);
    }
  }

  /** A key present with a falsy value (`null`, `false`, `0`, `""`) is still reported. */
  lemma FalsyValueReported(file: string, p: MerkleProof, j: nat, v: Value)
    requires j < |p.description.abi.inputs|
    requires Lookup(p.description.innerParameters, p.description.abi.inputs[j].name) == Some(v)
    requires !Truthy(v)
    ensures DiagnosticAt(file, p, j) in ProofDiagnostics(file, p)
  {
    ProofReportsInputIff(file, p, j);
  }

  /**
   * No false positives: every diagnostic of a proof belongs to one of its ABI
   * inputs, whose name does not resolve to a truthy inner parameter.
   */
  lemma ProofDiagnosticsSound(file: string, p: MerkleProof, d: Diagnostic)
    requires d in ProofDiagnostics(file, p)
    ensures MissingInner(p.description.innerParameters, d.missing)
    ensures d.file == file && d.proofLabel == p.description.description
    ensures exists j :: 0 <= j < |p.description.abi.inputs| && MissingAt(p, j) && d == DiagnosticAt(file, p, j)
  {
    var ds, idx := ProofDiagnostics(file, p), MissingIndices(p, |p.description.abi.inputs|);
    ProofDiagnosticsExact(file, p);
    var k :| 0 <= k < |ds| && ds[k] == d;
    assert MissingAt(p, idx[k]);
  }

  /** An input name mapped to a truthy value never appears in a diagnostic. */
  lemma TruthyNeverReported(file: string, p: MerkleProof, name: string, v: Value)
    requires Lookup(p.description.innerParameters, name) == Some(v)
    requires Truthy(v)
    ensures forall d :: d in ProofDiagnostics(file, p) ==> d.missing != name
  {
    forall d | d in ProofDiagnostics(file, p) {
      ProofDiagnosticsSound(file, p, d);
    }
  }

  /**
   * There are at most as many diagnostics as ABI inputs; none exactly when
   * every input resolves, one per input exactly when none does; an empty
   * input list gives none, whatever the inner parameters hold.
   */
  lemma ProofDiagnosticsCount(file: string, p: MerkleProof)
    ensures |ProofDiagnostics(file, p)| <= |p.description.abi.inputs|
    ensures ProofDiagnostics(file, p) == [] <==>
              forall j :: 0 <= j < |p.description.abi.inputs| ==> !MissingAt(p, j)
    ensures |ProofDiagnostics(file, p)| == |p.description.abi.inputs| <==>
              forall j :: 0 <= j < |p.description.abi.inputs| ==> MissingAt(p, j)
    ensures p.description.abi.inputs == [] ==> ProofDiagnostics(file, p) == []
  {
    var n := |p.description.abi.inputs|;
    var idx := MissingIndices(p, n);
    ProofDiagnosticsExact(file, p);
    MissingIndicesAll(p, n);
    if idx != [] {
      assert idx[0] in idx;
    }
  }

  // ---------------------------------------------------------------------------
  // One document and the whole directory

  /** The diagnostics of a document are those of its proofs, concatenated in order. */
  lemma ConfigDiagnosticsAppend(file: string, ps1: seq<MerkleProof>, ps2: seq<MerkleProof>)
    ensures ConfigDiagnostics(file, Config(ps1 + ps2))
         == ConfigDiagnostics(file, Config(ps1)) + ConfigDiagnostics(file, Config(ps2))
  {
    var whole, left, right := PerProof(file, Config(ps1 + ps2)), PerProof(file, Config(ps1)), PerProof(file, Config(ps2));
    assert |whole| == |left + right|;
    forall i | 0 <= i < |whole|
      ensures whole[i] == (left + right)[i]
    {
      if i >= |ps1| {
        assert (ps1 + ps2)[i] == ps2[i - |ps1|];
      }
    }
    assert whole == left + right;
    ConcatAppend(PerProof(file, Config(ps1)), PerProof(file, Config(ps2)));
  }

  lemma ConfigDiagnosticsMember(file: string, c: Config, d: Diagnostic)
    ensures d in ConfigDiagnostics(file, c) <==>
              exists i :: 0 <= i < |c.merkleProofs| && d in ProofDiagnostics(file, c.merkleProofs[i])
  {
    ConcatMember(PerProof(file, c), d);
    if i :| 0 <= i < |c.merkleProofs| && d in ProofDiagnostics(file, c.merkleProofs[i]) {
      assert d in PerProof(file, c)[i];
    }
  }

  /** The diagnostics of a run are those of its files, concatenated in directory order. */
  lemma RunDiagnosticsAppend(fs1: seq<ConfigFile>, fs2: seq<ConfigFile>)
    ensures RunDiagnostics(fs1 + fs2) == RunDiagnostics(fs1) + RunDiagnostics(fs2)
  {
    var whole, left, right := PerFile(fs1 + fs2), PerFile(fs1), PerFile(fs2);
    assert |whole| == |left + right|;
    forall f | 0 <= f < |whole|
      ensures whole[f] == (left + right)[f]
    {
      if f >= |fs1| {
        assert (fs1 + fs2)[f] == fs2[f - |fs1|];
      }
    }
    assert whole == left + right;
    ConcatAppend(PerFile(fs1), PerFile(fs2));
  }

  /**
   * A run reports a diagnostic exactly when some proof of some file does,
   * and the diagnostic names that file and that proof's label.
   */
  lemma RunDiagnosticsMember(files: seq<ConfigFile>, d: Diagnostic)
    ensures d in RunDiagnostics(files) <==>
              exists f, i :: 0 <= f < |files| && 0 <= i < |files[f].config.merkleProofs|
                && d in ProofDiagnostics(files[f].name, files[f].config.merkleProofs[i])
    ensures d in RunDiagnostics(files) ==>
              exists f, i :: 0 <= f < |files| && 0 <= i < |files[f].config.merkleProofs|
                && d.file == files[f].name
                && d.proofLabel == files[f].config.merkleProofs[i].description.description
  {
    ConcatMember(PerFile(files), d);
    if f :| 0 <= f < |files| && d in ConfigDiagnostics(files[f].name, files[f].config) {
      ConfigDiagnosticsMember(files[f].name, files[f].config, d);
      var i :| 0 <= i < |files[f].config.merkleProofs|
        && d in ProofDiagnostics(files[f].name, files[f].config.merkleProofs[i]);
      ProofDiagnosticsSound(files[f].name, files[f].config.merkleProofs[i], d);
    }
    if f, i :| (0 <= f < |files| && 0 <= i < |files[f].config.merkleProofs|
                && d in ProofDiagnostics(files[f].name, files[f].config.merkleProofs[i])) {
      ConfigDiagnosticsMember(files[f].name, files[f].config, d);
      assert d in PerFile(files)[f];
    }
  }
}
