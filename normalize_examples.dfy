/** Worked examples of category name normalisation. Each lemma discharges a
    single step, so that no proof has to evaluate more than one literal. */
module NormalizeExamples {
  import opened Ascii
  import opened Normalize

  lemma {:induction false} DulcesHasNoSpace()
    ensures forall i :: 0 <= i < |"Dulces"| ==> !IsSpace("Dulces"[i])
  {
  }

  lemma {:induction false} LowerDulcesHasNoSpace()
    ensures forall i :: 0 <= i < |"dulces"| ==> !IsSpace("dulces"[i])
  {
  }

  lemma {:induction false} MixedHasNoSpace()
    ensures forall i :: 0 <= i < |"dULceS"| ==> !IsSpace("dULceS"[i])
  {
  }

  lemma {:induction false} LowerDulces()
    ensures Lower("Dulces") == "dulces"
  {
    var l := Lower("Dulces");
    assert l[0] == 'd' && l[1] == 'u' && l[2] == 'l' && l[3] == 'c' && l[4] == 'e' && l[5] == 's';
  }

  lemma {:induction false} LowerLowerDulces()
    ensures Lower("dulces") == "dulces"
  {
    var l := Lower("dulces");
    assert l[0] == 'd' && l[1] == 'u' && l[2] == 'l' && l[3] == 'c' && l[4] == 'e' && l[5] == 's';
  }

  lemma {:induction false} LowerMixed()
    ensures Lower("dULceS") == "dulces"
  {
    var l := Lower("dULceS");
    assert l[0] == 'd' && l[1] == 'u' && l[2] == 'l' && l[3] == 'c' && l[4] == 'e' && l[5] == 's';
  }

  lemma {:induction false} KeyCapitalDulces()
    ensures CategoryKey("Dulces") == "dulces"
  {
    DulcesHasNoSpace();
    KeyOfWord("Dulces");
    LowerDulces();
  }

  lemma {:induction false} KeyLowerDulces()
    ensures CategoryKey("dulces") == "dulces"
  {
    LowerDulcesHasNoSpace();
    KeyOfWord("dulces");
    LowerLowerDulces();
  }

  /** "Dulces" and "dulces" share the key "dulces". */
  lemma {:induction false} ExampleKeys()
    ensures CategoryKey("Dulces") == CategoryKey("dulces") == "dulces"
  {
    KeyCapitalDulces();
    KeyLowerDulces();
  }

  lemma {:induction false} MixedKey()
    ensures CategoryKey("dULceS") == "dulces"
  {
    MixedHasNoSpace();
    KeyOfWord("dULceS");
    LowerMixed();
  }

  lemma {:induction false} CapitalDulces()
    ensures [UpperChar("dulces"[0])] + "dulces"[1..] == "Dulces"
  {
    assert "dulces"[1..] == "ulces";
  }

  /** Odd casing is evened out: "dULceS" is shown as "Dulces". */
  lemma {:induction false} ExampleMixedCase()
    ensures PrettyCategoryName("dULceS") == "Dulces"
  {
    MixedKey();
    PrettyFromKey("dULceS");
    CapitalDulces();
  }

  lemma {:induction false} LowerPies()
    ensures Lower("pies") == "pies"
  {
    var l := Lower("pies");
    assert l[0] == 'p' && l[1] == 'i' && l[2] == 'e' && l[3] == 's';
  }

  lemma {:induction false} PiesHasNoSpace()
    ensures forall i :: 0 <= i < |"pies"| ==> !IsSpace("pies"[i])
  {
  }

  lemma {:induction false} PadIsSpace(pad: string)
    requires pad == "  "
    ensures forall i :: 0 <= i < |pad| ==> IsSpace(pad[i])
  {
  }

  lemma {:induction false} PaddedKey(pad: string)
    requires pad == "  "
    ensures CategoryKey(pad + "pies" + pad) == "pies"
  {
    PadIsSpace(pad);
    PiesHasNoSpace();
    WordPadded(pad, "pies", pad);
    LowerPies();
  }

  lemma {:induction false} CapitalPies()
    ensures [UpperChar("pies"[0])] + "pies"[1..] == "Pies"
  {
    assert "pies"[1..] == "ies";
  }

  /** Padding is dropped: "  pies  " is shown as "Pies" (the two-space pad
      is a parameter so that the solver does not evaluate the literal). */
  lemma {:induction false} ExamplePadded(pad: string)
    requires pad == "  "
    ensures PrettyCategoryName(pad + "pies" + pad) == "Pies"
  {
    PaddedKey(pad);
    PrettyFromKey(pad + "pies" + pad);
    CapitalPies();
  }
}
