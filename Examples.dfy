/** Worked instances of the loader's behaviour on small inputs. */
module Examples {
  import opened Wrappers
  import opened Tables
  import opened NodeOrder
  import opened Loader

  /** `pd.unique` of the scan B, D, A keeps all three, in scan order. */
  lemma UniqueExample()
    ensures FirstOccurrences(["B", "D", "A"]) == ["B", "D", "A"]
  {
    assert FirstOccurrences(["B", "D"]) == ["B", "D"] by {
      assert ["B", "D"][..1] == ["B"];
      assert FirstOccurrences(["B"]) == ["B"] by { assert ["B"][..0] == []; }
    }
    assert ["B", "D", "A"][..2] == ["B", "D"];
  }

  /** Of the known list [A, B, C], the nodes B, D, A contain A and B. */
  lemma KnownPresentExample()
    ensures KnownPresent(["A", "B", "C"], ["B", "D", "A"]) == ["A", "B"]
  {
    var nodes := ["B", "D", "A"];
    assert ["A", "B", "C"][1..] == ["B", "C"] && ["B", "C"][1..] == ["C"] && ["C"][1..] == [];
    assert KnownPresent(["C"], nodes) == [];
    assert KnownPresent(["B", "C"], nodes) == ["B"];
  }

  /** With known list [A, B, C], the only other node among B, D, A is D. */
  lemma OtherNodesExample()
    ensures OtherNodes(["A", "B", "C"], ["B", "D", "A"]) == ["D"]
  {
    KnownPresentExample();
    assert ["B", "D", "A"][1..] == ["D", "A"] && ["D", "A"][1..] == ["A"] && ["A"][1..] == [];
  }

  /** With known list [A, B, C] and scanned nodes B, D, A the order is [A, B, D]. */
  lemma KnownFirstExample()
    ensures KnownFirst(["A", "B", "C"], FirstOccurrences(["B", "D", "A"])) == ["A", "B", "D"]
  {
    UniqueExample();
    KnownPresentExample();
    OtherNodesExample();
    assert KnownFirst(["A", "B", "C"], ["B", "D", "A"]) == ["A", "B"] + ["D"];
  }

  /** The cells 1, 2.5 and a non-numeric text scale to 10000, 25000 and missing. */
  lemma ScaleExample(parse: string -> Option<real>)
    requires parse("x") == None
    ensures ScaleColumn([Num(1.0), Num(2.5), Str("x")], parse) == [Some(10000.0), Some(25000.0), None]
  {
  }
}
