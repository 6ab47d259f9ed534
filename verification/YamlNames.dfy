/** The anchor names that the dumper makes up: "id" and a number of at least three digits. */
module YamlNames {
  import opened Numerals

  function Padded(s: string): string
    decreases 3 - |s|
  {
    if |s| >= 3 then s else Padded("0" + s)
  }

  function AnchorName(id: nat): string {
    "id" + Padded(Decimal(id))
  }

  lemma {:induction false} ZeroFront(s: string)
    ensures Value("0" + s) == Value(s)
  {
    if s == [] {
      assert ("0" + s)[..0] == [];
    } else {
      assert ("0" + s)[..|s|] == "0" + s[..|s| - 1];
      ZeroFront(s[..|s| - 1]);
    }
  }

  lemma {:induction false} PaddedValue(s: string)
    ensures Value(Padded(s)) == Value(s)
    decreases 3 - |s|
  {
    if |s| < 3 {
      ZeroFront(s);
      PaddedValue("0" + s);
    }
  }

  /** Different numbers give different names. */
  lemma {:induction false} AnchorNamesDiffer(a: nat, b: nat)
    ensures AnchorName(a) == AnchorName(b) ==> a == b
  {
    DecimalValue(a);
    DecimalValue(b);
    PaddedValue(Decimal(a));
    PaddedValue(Decimal(b));
    assert AnchorName(a)[2..] == Padded(Decimal(a)) && AnchorName(b)[2..] == Padded(Decimal(b));
  }
}
