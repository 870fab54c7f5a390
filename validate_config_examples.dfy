/** Concrete documents and the diagnostics the script prints for them. */
module ValidateConfigExamples {
  import opened Wrappers
  import opened Json
  import opened ValidateConfig

  function Proof(title: string, names: seq<string>, inner: Members): MerkleProof {
    MerkleProof(Description(title, Abi(seq(|names|, k requires 0 <= k < |names| => AbiInput(names[k]))), inner))
  }

  /** A renamed first parameter is reported with the key at its position as the suggestion. */
  lemma RenamedParameter()
    ensures ProofDiagnostics("a.json", Proof("transfer", ["from", "to", "amount"],
              [("sender", String("s")), ("to", String("t")), ("amount", String("n"))]))
         == [Diagnostic("a.json", "from", "transfer", Some("sender"))]
  {
    var p := Proof("transfer", ["from", "to", "amount"],
                   [("sender", String("s")), ("to", String("t")), ("amount", String("n"))]);
    var pieces := PerInput("a.json", p);
    assert pieces[0] == [Diagnostic("a.json", "from", "transfer", Some("sender"))];
    assert Lookup(p.description.innerParameters, "to") == Some(String("t"));
    assert pieces[1] == [];
    assert Lookup(p.description.innerParameters, "amount") == Some(String("n"));
    assert pieces[2] == [];
    ConcatSnoc(pieces, 0);
    ConcatSnoc(pieces, 1);
    ConcatSnoc(pieces, 2);
    assert pieces[..3] == pieces;
  }

  /** With no inner parameters the suggestion is `undefined`. */
  lemma EmptyInnerParameters()
    ensures ProofDiagnostics("a.json", Proof("approve", ["owner"], []))
         == [Diagnostic("a.json", "owner", "approve", None)]
  {
  }

  /** A key that is present with a falsy value is reported, and suggests itself. */
  lemma FalsyValueSuggestsItself()
    ensures ProofDiagnostics("a.json", Proof("mint", ["x"], [("x", String(""))]))
         == [Diagnostic("a.json", "x", "mint", Some("x"))]
  {
  }

  /**
   * The suggestion is chosen by position alone: here it names an inner
   * parameter that already matches another ABI input.
   */
  lemma SuggestionIgnoresMatches()
    ensures ProofDiagnostics("a.json", Proof("swap", ["amount", "to"],
              [("to", Bool(true)), ("amt", Bool(true))]))
         == [Diagnostic("a.json", "amount", "swap", Some("to"))]
  {
    var p := Proof("swap", ["amount", "to"], [("to", Bool(true)), ("amt", Bool(true))]);
    var pieces := PerInput("a.json", p);
    assert pieces[0] == [Diagnostic("a.json", "amount", "swap", Some("to"))];
    assert Lookup(p.description.innerParameters, "to") == Some(Bool(true));
    assert pieces[1] == [];
    ConcatSnoc(pieces, 0);
    ConcatSnoc(pieces, 1);
    assert pieces[..2] == pieces;
  }
}
